/** The notification providers and the factory `NotificationService.create`
    with each provider's constructor. A provider is the record of the
    settings its constructor reads; sending is left to the caller as an
    uninterpreted function. Settings are a string-to-string map, and a
    lookup of a missing key (Python's `KeyError`) is a `MissingKey` failure. */
module Notify {
  import opened Outcomes
  import Text

  type Settings = map<string, string>

  const DefaultNtfyServer := "https://ntfy.sh"

  /** The title every notification is sent with. */
  const DefaultTitle := "Sync Complete"

  datatype Provider =
    | Ntfy(server: string, topic: string)
    | Pushover(apiToken: string, userKey: string)
    | Discord(webhookUrl: string)
    | Telegram(botToken: string, chatId: string)
    | Gotify(server: string, token: string)
    | Matrix(homeserver: string, accessToken: string, roomId: string)

  datatype ConfigError = UnknownKind(kind: string) | MissingKey(key: string)

  /** The kind tag a provider was created from. */
  function Kind(p: Provider): string
  {
    match p
    case Ntfy(_, _) => "ntfy"
    case Pushover(_, _) => "pushover"
    case Discord(_) => "discord"
    case Telegram(_, _) => "telegram"
    case Gotify(_, _) => "gotify"
    case Matrix(_, _, _) => "matrix"
  }

  /** The tags of the factory's table. */
  const Kinds: set<string> := {"ntfy", "pushover", "discord", "telegram", "gotify", "matrix"}

  /** The keys each kind's constructor reads without a default, in the
      order it reads them. */
  function Required(kind: string): seq<string>
  {
    if kind == "ntfy" then ["topic"]
    else if kind == "pushover" then ["api_token", "user_key"]
    else if kind == "discord" then ["webhook_url"]
    else if kind == "telegram" then ["bot_token", "chat_id"]
    else if kind == "gotify" then ["server", "token"]
    else if kind == "matrix" then ["homeserver", "access_token", "room_id"]
    else []
  }

  /** The first of `keys` that `s` lacks, if any. */
  function FirstMissing(keys: seq<string>, s: Settings): (r: Option<string>)
    ensures r.None? <==> forall i :: 0 <= i < |keys| ==> keys[i] in s
    ensures r.None? <==> forall k :: k in keys ==> k in s
    ensures r.Some? ==> r.value in keys && r.value !in s
  {
    if |keys| == 0 then None
    else if keys[0] !in s then Some(keys[0])
    else FirstMissing(keys[1..], s)
  }

  function Lookup(s: Settings, key: string): Result<string, ConfigError>
  {
    if key in s then Success(s[key]) else Failure(MissingKey(key))
  }

  /** `server` without its trailing slashes. */
  ghost predicate ServerFrom(server: string, given: string)
  {
    Text.RStripped(server, given, '/')
  }

  /** The provider holds exactly what its constructor reads from `s`. */
  ghost predicate BuiltFrom(p: Provider, s: Settings)
  {
    match p
    case Ntfy(server, topic) =>
      && ServerFrom(server, if "server" in s then s["server"] else DefaultNtfyServer)
      && "topic" in s && topic == s["topic"]
    case Pushover(apiToken, userKey) =>
      && "api_token" in s && apiToken == s["api_token"]
      && "user_key" in s && userKey == s["user_key"]
    case Discord(webhookUrl) =>
      "webhook_url" in s && webhookUrl == s["webhook_url"]
    case Telegram(botToken, chatId) =>
      && "bot_token" in s && botToken == s["bot_token"]
      && "chat_id" in s && chatId == s["chat_id"]
    case Gotify(server, token) =>
      && "server" in s && ServerFrom(server, s["server"])
      && "token" in s && token == s["token"]
    case Matrix(homeserver, accessToken, roomId) =>
      && "homeserver" in s && ServerFrom(homeserver, s["homeserver"])
      && "access_token" in s && accessToken == s["access_token"]
      && "room_id" in s && roomId == s["room_id"]
  }

  /** `NotificationService.create(kind, s)`: fails on a tag outside the
      table, then on the first required key missing; otherwise builds the
      provider of that kind from `s`. */
  function Create(kind: string, s: Settings): (r: Result<Provider, ConfigError>)
    ensures kind !in Kinds ==> r == Failure(UnknownKind(kind))
    ensures kind in Kinds ==>
      match FirstMissing(Required(kind), s)
      case Some(key) => r == Failure(MissingKey(key))
      case None => r.Success?
    ensures r.Success? ==> Kind(r.value) == kind && BuiltFrom(r.value, s)
  {
    if kind == "ntfy" then
      var server := Text.RStrip(if "server" in s then s["server"] else DefaultNtfyServer, '/');
      var topic :- Lookup(s, "topic");
      Success(Ntfy(server, topic))
    else if kind == "pushover" then
      var apiToken :- Lookup(s, "api_token");
      var userKey :- Lookup(s, "user_key");
      Success(Pushover(apiToken, userKey))
    else if kind == "discord" then
      var webhookUrl :- Lookup(s, "webhook_url");
      Success(Discord(webhookUrl))
    else if kind == "telegram" then
      var botToken :- Lookup(s, "bot_token");
      var chatId :- Lookup(s, "chat_id");
      Success(Telegram(botToken, chatId))
    else if kind == "gotify" then
      var server :- Lookup(s, "server");
      var token :- Lookup(s, "token");
      Success(Gotify(Text.RStrip(server, '/'), token))
    else if kind == "matrix" then
      var homeserver :- Lookup(s, "homeserver");
      var accessToken :- Lookup(s, "access_token");
      var roomId :- Lookup(s, "room_id");
      Success(Matrix(Text.RStrip(homeserver, '/'), accessToken, roomId))
    else
      Failure(UnknownKind(kind))
  }

  /** Creation succeeds exactly for a known tag whose required keys are all
      present. */
  lemma CreateSucceedsIff(kind: string, s: Settings)
    ensures Create(kind, s).Success? <==>
      kind in Kinds && forall i :: 0 <= i < |Required(kind)| ==> Required(kind)[i] in s
  {
    var _ := FirstMissing(Required(kind), s);
  }

  /** An ntfy provider without a `server` setting posts to the public
      server. */
  lemma NtfyDefaultServer(s: Settings)
    requires "server" !in s && "topic" in s
    ensures Create("ntfy", s) == Success(Ntfy(DefaultNtfyServer, s["topic"]))
  {
    var r := Create("ntfy", s);
    Text.RStrippedUnique(r.value.server, DefaultNtfyServer, DefaultNtfyServer, '/');
  }

  /** Every server a provider stores is a prefix of the configured one with
      no trailing '/'. */
  lemma StoredServerStripped(kind: string, s: Settings)
    requires Create(kind, s).Success?
    ensures var p := Create(kind, s).value;
      (p.Ntfy? || p.Gotify?) ==> (|p.server| == 0 || p.server[|p.server| - 1] != '/')
    ensures var p := Create(kind, s).value;
      p.Matrix? ==> (|p.homeserver| == 0 || p.homeserver[|p.homeserver| - 1] != '/') && p.homeserver <= s["homeserver"]
  {
  }
}
