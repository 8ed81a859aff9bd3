/**
 * The notifier (src/operator/notifier.rs). Webhook and bot calls are not
 * performed: `Notify` returns the sequence of attempted sends, and which of
 * them failed, given the outcome of each send as a parameter.
 */
module Notifier {
  import opened Results
  import RadioConfig
  import Lib

  datatype Notifier = Notifier(
    radioName: string,
    slackWebhook: Option<string>,
    discordWebhook: Option<string>,
    telegramToken: Option<string>,
    telegramChatId: Option<int>)

  /** `Notifier::from_config`: the channel settings of the configuration, under the radio's fixed name. */
  function FromConfig(c: RadioConfig.Config): (n: Notifier)
    ensures n.radioName == Lib.RadioName
    ensures n.slackWebhook == c.slackWebhook && n.discordWebhook == c.discordWebhook
    ensures n.telegramToken == c.telegramToken && n.telegramChatId == c.telegramChatId
  {
    Notifier(Lib.RadioName, c.slackWebhook, c.discordWebhook, c.telegramToken, c.telegramChatId)
  }

  datatype Channel = Slack | Discord | Telegram

  /** One send: where it goes, under which radio name, with which content. */
  datatype Attempt =
    | SlackPost(url: string, radioName: string, content: string)
    | DiscordPost(url: string, radioName: string, content: string)
    | TelegramSend(token: string, chatId: int, radioName: string, content: string)
  {
    function ChannelOf(): Channel {
      match this
      case SlackPost(_, _, _) => Slack
      case DiscordPost(_, _, _) => Discord
      case TelegramSend(_, _, _, _) => Telegram
    }
  }

  function ChannelsOf(attempts: seq<Attempt>): seq<Channel> {
    seq(|attempts|, i requires 0 <= i < |attempts| => attempts[i].ChannelOf())
  }

  /** The send goes to the webhook, token and chat configured for its channel. */
  predicate TargetsConfigured(n: Notifier, a: Attempt) {
    match a
    case SlackPost(url, _, _) => n.slackWebhook == Some(url)
    case DiscordPost(url, _, _) => n.discordWebhook == Some(url)
    case TelegramSend(token, chat, _, _) => n.telegramToken == Some(token) && n.telegramChatId == Some(chat)
  }

  /**
   * The sends `notify` makes, in order: Slack when its webhook is set,
   * Discord when its webhook is set, Telegram only when both the token and
   * the chat id are set.
   */
  function PlannedSends(n: Notifier, content: string): (a: seq<Attempt>)
    ensures ChannelsOf(a) ==
      (if n.slackWebhook.Some? then [Slack] else [])
      + (if n.discordWebhook.Some? then [Discord] else [])
      + (if n.telegramToken.Some? && n.telegramChatId.Some? then [Telegram] else [])
    ensures forall i :: 0 <= i < |a| ==> a[i].radioName == n.radioName && a[i].content == content
    ensures forall i :: 0 <= i < |a| ==> TargetsConfigured(n, a[i])
  {
    (if n.slackWebhook.Some? then [SlackPost(n.slackWebhook.value, n.radioName, content)] else [])
    + (if n.discordWebhook.Some? then [DiscordPost(n.discordWebhook.value, n.radioName, content)] else [])
    + (if n.telegramToken.Some? && n.telegramChatId.Some?
       then [TelegramSend(n.telegramToken.value, n.telegramChatId.value, n.radioName, content)] else [])
  }

  /** The channels of the sends that failed, in order. */
  function FailedChannels(attempts: seq<Attempt>, succeeds: Attempt -> bool): seq<Channel> {
    if |attempts| == 0 then []
    else
      var here := if succeeds(attempts[0]) then [] else [attempts[0].ChannelOf()];
      here + FailedChannels(attempts[1..], succeeds)
  }

  /** The sends `notify` made, and the channels whose send failed (each only logged as a warning). */
  datatype Report = Report(attempts: seq<Attempt>, warnings: seq<Channel>)

  /** `notify`: every planned send is tried whatever became of the earlier ones. */
  function Notify(n: Notifier, content: string, succeeds: Attempt -> bool): (r: Report)
    ensures r.attempts == PlannedSends(n, content)
    ensures |r.warnings| <= |r.attempts|
    ensures forall ch :: ch in r.warnings <==> exists i :: 0 <= i < |r.attempts| && !succeeds(r.attempts[i]) && r.attempts[i].ChannelOf() == ch
  {
    var planned := PlannedSends(n, content);
    FailedChannelsMeaning(planned, succeeds);
    Report(planned, FailedChannels(planned, succeeds))
  }

  /** A channel is warned about exactly when one of its sends failed. */
  lemma {:induction false} FailedChannelsMeaning(attempts: seq<Attempt>, succeeds: Attempt -> bool)
    ensures |FailedChannels(attempts, succeeds)| <= |attempts|
    ensures forall ch :: ch in FailedChannels(attempts, succeeds) <==> exists i :: 0 <= i < |attempts| && !succeeds(attempts[i]) && attempts[i].ChannelOf() == ch
    decreases |attempts|
  {
    if |attempts| > 0 {
      var rest := attempts[1..];
      FailedChannelsMeaning(rest, succeeds);
      forall i | 0 <= i < |rest| && !succeeds(rest[i])
        ensures exists j :: 0 <= j < |attempts| && !succeeds(attempts[j]) && attempts[j].ChannelOf() == rest[i].ChannelOf()
      {
        assert attempts[i + 1] == rest[i];
      }
      forall i | 0 <= i < |attempts| && !succeeds(attempts[i])
        ensures attempts[i].ChannelOf() in FailedChannels(attempts, succeeds)
      {
        if i > 0 {
          assert rest[i - 1] == attempts[i];
        }
      }
    }
  }

  /** A notifier built from a configuration tries Slack exactly when the configuration sets a Slack webhook. */
  lemma SlackIffConfigured(c: RadioConfig.Config, content: string, succeeds: Attempt -> bool)
    ensures Slack in ChannelsOf(Notify(FromConfig(c), content, succeeds).attempts) <==> c.slackWebhook.Some?
  {
  }

  /** Which sends are attempted does not depend on whether earlier sends failed. */
  lemma FailuresDoNotStopLaterSends(n: Notifier, content: string, f: Attempt -> bool, g: Attempt -> bool)
    ensures Notify(n, content, f).attempts == Notify(n, content, g).attempts
  {
  }
}
