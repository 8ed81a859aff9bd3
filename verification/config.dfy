/** The parts of the radio's configuration (src/config.rs) that carry decisions. */
module RadioConfig {
  import opened Results

  /** `Config`, reduced to the fields the modelled code reads. */
  datatype Config = Config(
    indexerAddress: Option<string>,
    privateKey: Option<string>,
    mnemonic: Option<string>,
    topics: seq<string>,
    filterProtocol: Option<bool>,
    slackWebhook: Option<string>,
    discordWebhook: Option<string>,
    telegramToken: Option<string>,
    telegramChatId: Option<int>,
    radioName: string,
    maxStorage: Option<int>,
    retention: int)

  /** `ConfigError::ValidateInput`; the other variants come from parsing, which is not modelled. */
  datatype ConfigError = ValidateInput(message: string)

  const MissingWalletMessage := "Must provide either private key or mnemonic"

  /** `wallet_input`: the private key takes precedence over the mnemonic. */
  function WalletInput(c: Config): (r: Result<string, ConfigError>)
    ensures r.Ok? <==> c.privateKey.Some? || c.mnemonic.Some?
    ensures c.privateKey.Some? ==> r == Ok(c.privateKey.value)
    ensures c.privateKey.None? && c.mnemonic.Some? ==> r == Ok(c.mnemonic.value)
    ensures r.Err? ==> r.error == ValidateInput(MissingWalletMessage)
  {
    match (c.privateKey, c.mnemonic)
    case (Some(p), _) => Ok(p)
    case (_, Some(m)) => Ok(m)
    case _ => Err(ValidateInput(MissingWalletMessage))
  }

  /** The indexer address handed to the agent: the configured one, or the text "none". */
  function AgentIndexerAddress(c: Config): (a: string)
    ensures c.indexerAddress.Some? ==> a == c.indexerAddress.value
    ensures c.indexerAddress.None? ==> a == "none"
  {
    c.indexerAddress.GetOr("none")
  }

  /** The arguments of `to_graphcast_agent_config` that this model tracks. */
  datatype AgentArgs = AgentArgs(
    walletKey: string,
    indexerAddress: string,
    radioName: string,
    topics: seq<string>,
    filterProtocol: Option<bool>)

  /**
   * The argument list `to_graphcast_agent_config` builds. It unwraps
   * `wallet_input`, so a configuration with neither key nor mnemonic panics,
   * which the model reports as `None`.
   */
  function AgentConfigArgs(c: Config): (r: Option<AgentArgs>)
    ensures r.None? <==> c.privateKey.None? && c.mnemonic.None?
    ensures r.Some? ==> r.value.walletKey == WalletInput(c).value
    ensures r.Some? ==> r.value.indexerAddress == AgentIndexerAddress(c)
    ensures r.Some? ==> r.value.radioName == c.radioName && r.value.topics == c.topics
  {
    match WalletInput(c)
    case Ok(key) => Some(AgentArgs(key, AgentIndexerAddress(c), c.radioName, c.topics, c.filterProtocol))
    case Err(_) => None
  }

  /** Whatever the mnemonic holds, a configured private key is the wallet input. */
  lemma PrivateKeyWins(c: Config, m: Option<string>)
    requires c.privateKey.Some?
    ensures WalletInput(c.(mnemonic := m)) == WalletInput(c) == Ok(c.privateKey.value)
  {
  }
}
