/** Crate-level helpers of the radio (src/lib.rs). */
module Lib {
  import opened Results
  import Strings

  /** `radio_name()`. */
  const RadioName: string := "graphcast-3la"

  /**
   * `OperationError`. The SDK errors inside `Agent` and `Query` are known here
   * only through their display text.
   */
  datatype OperationError =
    | SendTrigger(msg: string)
    | SkipDuplicate(msg: string)
    | CompareTrigger(deployment: string, block: nat, detail: string)
    | Agent(agentText: string)
    | Query(queryText: string)
    | Others(text: string)

  /** The fixed text of each variant's `#[error(...)]` attribute, before the `{0}`. */
  function Label(e: OperationError): string {
    match e
    case SendTrigger(_) => "Send message trigger isn't met: "
    // written in two pieces so that its characters can be read off in proofs
    case SkipDuplicate(_) => "Message sent already, " + "skip to avoid duplicates: "
    case CompareTrigger(_, _, _) => "Comparison trigger isn't met: "
    case Agent(_) => "Agent encountered problems: "
    case Query(_) => "Failed to query: "
    case Others(_) => "Others: "
  }

  /** The first letter of each label; no two labels share it. */
  function LabelHead(e: OperationError): (c: char)
    ensures c == Label(e)[0]
  {
    match e
    case SendTrigger(_) => 'S'
    case SkipDuplicate(_) => 'M'
    case CompareTrigger(_, _, _) => 'C'
    case Agent(_) => 'A'
    case Query(_) => 'F'
    case Others(_) => 'O'
  }

  /** What `{0}` shows: the first field of the variant. */
  function Shown(e: OperationError): string {
    match e
    case SendTrigger(m) => m
    case SkipDuplicate(m) => m
    case CompareTrigger(d, _, _) => d
    case Agent(a) => a
    case Query(q) => q
    case Others(t) => t
  }

  /** The display text of an error. */
  function Display(e: OperationError): string {
    Label(e) + Shown(e)
  }

  /**
   * The display text names its variant, and gives back the inner text of every
   * variant but `CompareTrigger`, whose block number and detail are not shown.
   */
  lemma DisplayNamesVariant(e: OperationError, e': OperationError)
    requires Display(e) == Display(e')
    ensures e.SendTrigger? == e'.SendTrigger? && e.SkipDuplicate? == e'.SkipDuplicate?
    ensures e.CompareTrigger? == e'.CompareTrigger? && e.Agent? == e'.Agent?
    ensures e.Query? == e'.Query? && e.Others? == e'.Others?
    ensures !e.CompareTrigger? ==> e == e'
    ensures e.CompareTrigger? ==> e.deployment == e'.deployment
  {
    var p, p' := Label(e), Label(e');
    assert Display(e)[0] == p[0] && Display(e')[0] == p'[0];
    assert p[0] == p'[0];
    assert p == p' by {
      assert LabelHead(e) == p[0] && LabelHead(e') == p'[0];
    }
    assert Shown(e) == Display(e)[|p|..];
    assert Shown(e') == Display(e')[|p|..];
  }

  /** The variants `clone_with_inner` copies field by field. */
  predicate IsTrigger(e: OperationError) {
    e.SendTrigger? || e.SkipDuplicate? || e.CompareTrigger?
  }

  /** `clone_with_inner`: trigger variants are copied, everything else collapses into `Others`. */
  function CloneWithInner(e: OperationError): (r: OperationError)
    ensures IsTrigger(e) ==> r == e
    ensures !IsTrigger(e) ==> r == Others(Display(e))
  {
    match e
    case SendTrigger(m) => SendTrigger(m)
    case SkipDuplicate(m) => SkipDuplicate(m)
    case CompareTrigger(d, b, m) => CompareTrigger(d, b, m)
    case _ => Others(Display(e))
  }

  predicate IsSuffix(s: string, t: string) {
    |s| <= |t| && t[|t| - |s|..] == s
  }

  /**
   * A clone never holds an SDK error, and the original's display text
   * survives as the tail of the clone's display text.
   */
  lemma CloneKeepsText(e: OperationError)
    ensures !CloneWithInner(e).Agent? && !CloneWithInner(e).Query?
    ensures IsSuffix(Display(e), Display(CloneWithInner(e)))
  {
  }

  /** Cloning `Others` prefixes "Others: " once more, so it is not idempotent there. */
  lemma CloneOthersGrows(s: string)
    ensures CloneWithInner(Others(s)) == Others("Others: " + s)
    ensures CloneWithInner(CloneWithInner(Others(s))) != CloneWithInner(Others(s))
  {
    assert |CloneWithInner(CloneWithInner(Others(s))).text| > |CloneWithInner(Others(s)).text|;
  }

  /** The `number` of a `BlockPointer` (its hash is never printed). */
  datatype BlockPointer = BlockPointer(number: nat, hash: string)

  /** One `"{network}: {number}"` entry. */
  function Entry(network: string, block: BlockPointer): string {
    network + ": " + Strings.NatToString(block.number)
  }

  function Entries(blocks: seq<(string, BlockPointer)>): (r: seq<string>)
    ensures |r| == |blocks|
  {
    if |blocks| == 0 then []
    else Entries(blocks[..|blocks| - 1]) + [Entry(blocks[|blocks| - 1].0, blocks[|blocks| - 1].1)]
  }

  /**
   * What `chainhead_block_str` prints: the entries joined by ", " inside
   * "{ " and " }". The source iterates a hash map, whose order is arbitrary;
   * the model takes the pairs in the order given.
   */
  function ChainheadText(blocks: seq<(string, BlockPointer)>): string {
    "{ " + Strings.Join(", ", Entries(blocks)) + " }"
  }

  /** `chainhead_block_str`: appends a separator before every entry but the first. */
  method ChainheadBlockStr(blocks: seq<(string, BlockPointer)>) returns (s: string)
    ensures s == ChainheadText(blocks)
    ensures |s| >= 4 && s[..2] == "{ " && s[|s| - 2..] == " }"
  {
    s := "{ ";
    var i := 0;
    while i < |blocks|
      invariant 0 <= i <= |blocks|
      invariant s == "{ " + Strings.Join(", ", Entries(blocks[..i]))
    {
      JoinPrefixStep(blocks, i);
      var sep := if i > 0 then ", " else "";
      var entry := Entry(blocks[i].0, blocks[i].1);
      Concat3("{ ", Strings.Join(", ", Entries(blocks[..i])), sep + entry);
      s := s + (sep + entry);
      i := i + 1;
    }
    assert blocks[..i] == blocks;
    s := s + " }";
  }

  /** The text joined so far grows by one separator (after the first entry) and one entry. */
  lemma JoinPrefixStep(blocks: seq<(string, BlockPointer)>, i: nat)
    requires i < |blocks|
    ensures Strings.Join(", ", Entries(blocks[..i + 1]))
         == Strings.Join(", ", Entries(blocks[..i])) + ((if i > 0 then ", " else "") + Entry(blocks[i].0, blocks[i].1))
  {
    var bs := blocks[..i + 1];
    var entry := Entry(blocks[i].0, blocks[i].1);
    assert bs[..i] == blocks[..i];
    assert Entries(bs) == Entries(blocks[..i]) + [entry];
    if i > 0 {
      Strings.JoinAppend(", ", Entries(blocks[..i]), entry);
      Concat3(Strings.Join(", ", Entries(blocks[..i])), ", ", entry);
    } else {
      assert Entries(blocks[..i]) == [];
      assert Entries(blocks[..i]) + [entry] == [entry];
    }
  }

  lemma Concat3(a: string, b: string, c: string)
    ensures a + b + c == a + (b + c)
  {
  }

  /** No pairs print as "{  }"; one pair prints without any separator. */
  lemma ChainheadSmallCases(network: string, block: BlockPointer)
    ensures ChainheadText([]) == "{  }"
    ensures ChainheadText([(network, block)]) == "{ " + network + ": " + Strings.NatToString(block.number) + " }"
  {
    assert Entries([(network, block)]) == [Entry(network, block)];
  }

  /** Adding a pair adds exactly one ", "-separated entry at the end. */
  lemma ChainheadAppend(blocks: seq<(string, BlockPointer)>, network: string, block: BlockPointer)
    requires |blocks| > 0
    ensures ChainheadText(blocks + [(network, block)])
         == "{ " + (Strings.Join(", ", Entries(blocks)) + ", " + Entry(network, block)) + " }"
  {
    var bs := blocks + [(network, block)];
    assert bs[..|bs| - 1] == blocks;
    assert Entries(bs) == Entries(blocks) + [Entry(network, block)];
    Strings.JoinAppend(", ", Entries(blocks), Entry(network, block));
  }

  /** The part of an indexing status the topic filter reads. */
  datatype IndexingStatus = IndexingStatus(subgraph: string, node: Option<string>)

  /** A deployment is syncing when it is assigned to a node other than "removed". */
  predicate IsSyncing(st: IndexingStatus) {
    st.node.Some? && st.node != Some("removed")
  }

  /**
   * The filter and map of `syncing_deployment_hashes`. `SyncingSubgraphsAppend`
   * and `SyncingSubgraphsSingle` pin down the order: hashes appear as their
   * statuses do in the input.
   */
  function SyncingSubgraphs(statuses: seq<IndexingStatus>): (r: seq<string>)
    ensures |r| <= |statuses|
    ensures forall h :: h in r <==> exists st :: st in statuses && IsSyncing(st) && st.subgraph == h
  {
    if |statuses| == 0 then []
    else
      var rest := SyncingSubgraphs(statuses[1..]);
      assert forall st :: st in statuses <==> st == statuses[0] || st in statuses[1..];
      if IsSyncing(statuses[0]) then [statuses[0].subgraph] + rest else rest
  }

  /** Appending statuses appends their syncing hashes: the filter keeps the input order. */
  lemma {:induction false} SyncingSubgraphsAppend(a: seq<IndexingStatus>, b: seq<IndexingStatus>)
    ensures SyncingSubgraphs(a + b) == SyncingSubgraphs(a) + SyncingSubgraphs(b)
    decreases |a|
  {
    if |a| > 0 {
      assert (a + b)[1..] == a[1..] + b;
      SyncingSubgraphsAppend(a[1..], b);
    } else {
      assert a + b == b;
    }
  }

  /** One status contributes its hash exactly when it is syncing. */
  lemma SyncingSubgraphsSingle(st: IndexingStatus)
    ensures SyncingSubgraphs([st]) == if IsSyncing(st) then [st.subgraph] else []
  {
    assert [st][1..] == [];
  }

  /** The error `get_indexing_statuses` returns; its content is not modelled. */
  datatype QueryError = QueryError(text: string)

  /** A panicking call, in place of a value. */
  datatype Panic = Panic

  /**
   * `syncing_deployment_hashes` as written: `map_err` turns the query error
   * into an `Err(vec![])`, and the following `unwrap` panics on it.
   */
  function SyncingDeploymentHashesAsWritten(statuses: Result<seq<IndexingStatus>, QueryError>)
    : (r: Result<seq<string>, Panic>)
    ensures r.Err? <==> statuses.Err?
    ensures r.Ok? ==> r.value == SyncingSubgraphs(statuses.value)
  {
    match statuses
    case Ok(sts) => Ok(SyncingSubgraphs(sts))
    case Err(_) => Err(Panic)
  }

  /** `syncing_deployment_hashes` as its error handler intends: a failed query yields no topics. */
  function SyncingDeploymentHashes(statuses: Result<seq<IndexingStatus>, QueryError>): (r: seq<string>)
    ensures statuses.Err? ==> r == []
    ensures statuses.Ok? ==> forall h :: h in r <==>
      exists st :: st in statuses.value && IsSyncing(st) && st.subgraph == h
  {
    match statuses
    case Ok(sts) => SyncingSubgraphs(sts)
    case Err(_) => []
  }

  /** A failed status query crashes the version as written, and yields no topics in the corrected one. */
  lemma StatusQueryFailure(e: QueryError)
    ensures SyncingDeploymentHashesAsWritten(Err(e)) == Err(Panic)
    ensures SyncingDeploymentHashes(Err(e)) == []
  {
  }

  /** Statuses on no node, or on the node "removed", never become topics. */
  lemma UnassignedNeverTopics(statuses: seq<IndexingStatus>, h: string)
    requires forall st :: st in statuses && st.subgraph == h ==> st.node.None? || st.node == Some("removed")
    ensures h !in SyncingSubgraphs(statuses)
  {
  }
}
