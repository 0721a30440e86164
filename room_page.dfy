/**
 * The pure helpers of the web client's room page: where the socket connects
 * (`resolveWsUrl`), the display name taken from the `name` query parameter, and the
 * payload of an outgoing signalling message. The build-time variable, the page's
 * hostname and origin, and the query parameter are parameters.
 */
module RoomPage {
  import opened Options
  import opened Text
  import opened LinkedMaps
  import opened JsonNodes
  import opened Routing

  /** The base used on a page served from `localhost` when no base is configured. */
  const LOCAL_FALLBACK := "http://localhost:8080"
  const ANONYMOUS := "Anonymous"

  // ---------------------------------------------------------------- string helpers

  /** The first index at or after `from` where `pat` occurs in `s`. */
  function FirstOccurrenceFrom(s: string, pat: string, from: nat): (i: Option<nat>)
    ensures i.Some? ==> from <= i.value && OccursAt(s, pat, i.value)
    ensures forall j: nat :: from <= j && (i.None? || j < i.value) ==> !OccursAt(s, pat, j)
    decreases |s| - from
  {
    if from + |pat| > |s| then None
    else if OccursAt(s, pat, from) then Some(from)
    else FirstOccurrenceFrom(s, pat, from + 1)
  }

  /** `String.prototype.replace` with a string pattern: only the first occurrence. */
  function ReplaceFirst(s: string, pat: string, rep: string): string {
    match FirstOccurrenceFrom(s, pat, 0)
    case None => s
    case Some(i) => s[..i] + rep + s[i + |pat|..]
  }

  /** `replace(/\/$/, "")`: drops one `/` at the very end, if there is one. */
  function StripTrailingSlash(s: string): string {
    if s != [] && s[|s| - 1] == '/' then s[..|s| - 1] else s
  }

  /** Replacing a prefix rewrites exactly that prefix. */
  lemma ReplaceFirstAtStart(s: string, pat: string, rep: string)
    requires StartsWith(s, pat)
    ensures ReplaceFirst(s, pat, rep) == rep + s[|pat|..]
  {
    assert OccursAt(s, pat, 0);
    assert FirstOccurrenceFrom(s, pat, 0) == Some(0);
  }

  /** At most one slash goes, and only a final one. */
  lemma StripTrailingSlashRemovesOne(s: string)
    ensures var r := StripTrailingSlash(s);
      && (EndsWith(s, "/") ==> r + "/" == s)
      && (!EndsWith(s, "/") ==> r == s)
  {
    if s != [] && s[|s| - 1] == '/' {
      assert s[|s| - 1..] == "/";
      assert s[..|s| - 1] + "/" == s;
    }
  }

  // ---------------------------------------------------------------- resolveWsUrl

  /** `envBaseUrl || fallback`: the trimmed configured base unless it is absent or empty. */
  function Base(env: Option<string>, hostname: string, origin: string): string {
    var configured := if env.None? then "" else JsTrim(env.value);
    if configured != "" then configured
    else if hostname == "localhost" then LOCAL_FALLBACK
    else origin
  }

  /** `resolveWsUrl`: the base, turned into a websocket URL. */
  function ResolveWsUrl(env: Option<string>, hostname: string, origin: string): (url: string)
    ensures EndsWith(url, "/ws")
  {
    WsUrlOf(Base(env, hostname, origin))
  }

  /** The scheme rewriting and `/ws` suffix of `resolveWsUrl`, for a given base. */
  function WsUrlOf(base: string): (url: string)
    ensures EndsWith(url, "/ws")
  {
    var url :=
      if StartsWith(base, "ws://") || StartsWith(base, "wss://") then StripTrailingSlash(base) + "/ws"
      else if StartsWith(base, "http://") || StartsWith(base, "https://") then
        var wsBase := if StartsWith(base, "https://") then ReplaceFirst(base, "https://", "wss://")
                      else ReplaceFirst(base, "http://", "ws://");
        StripTrailingSlash(wsBase) + "/ws"
      else "ws://" + StripTrailingSlash(base) + "/ws";
    assert url[|url| - 3..] == "/ws";
    url
  }

  /** The base is the trimmed configured value when it has a non-whitespace character,
      and otherwise the fallback chosen by the hostname. */
  lemma BaseCases(env: Option<string>, hostname: string, origin: string)
    ensures env.Some? && (exists i :: 0 <= i < |env.value| && !JsWhitespace(env.value[i])) ==>
      Base(env, hostname, origin) == JsTrim(env.value)
    ensures env.None? || (forall i :: 0 <= i < |env.value| ==> JsWhitespace(env.value[i])) ==>
      Base(env, hostname, origin) == if hostname == "localhost" then LOCAL_FALLBACK else origin
  {
    if env.Some? {
      TrimEmptyIffAll(JsWhitespace, env.value);
    }
  }

  /** The four schemes `resolveWsUrl` tests for exclude one another, except that `ws://`
      and `wss://` on one side and `http://` and `https://` on the other share a branch. */
  lemma SchemesDiffer(s: string)
    ensures StartsWith(s, "ws://") ==> !StartsWith(s, "wss://") && !StartsWith(s, "http://") && !StartsWith(s, "https://")
    ensures StartsWith(s, "wss://") ==> !StartsWith(s, "http://") && !StartsWith(s, "https://")
    ensures StartsWith(s, "http://") ==> !StartsWith(s, "https://")
  {
    if StartsWith(s, "ws://") {
      assert s[..5][0] == 'w' && s[..5][2] == ':';
    }
    if StartsWith(s, "wss://") {
      assert s[..6][0] == 'w';
    }
    if StartsWith(s, "http://") {
      assert s[..7][4] == ':';
    }
  }

  /** Each branch of `resolveWsUrl`: a websocket base keeps its scheme, an HTTP base has
      its scheme rewritten to the matching websocket one, and anything else is taken as
      a host for `ws://`; one trailing slash is dropped before `/ws`. */
  lemma WsUrlCases(base: string)
    ensures var url := WsUrlOf(base);
      && ((StartsWith(base, "ws://") || StartsWith(base, "wss://")) ==> url == StripTrailingSlash(base) + "/ws")
      && (StartsWith(base, "https://") ==> url == StripTrailingSlash("wss://" + base[8..]) + "/ws")
      && (StartsWith(base, "http://") ==> url == StripTrailingSlash("ws://" + base[7..]) + "/ws")
      && ((!StartsWith(base, "ws://") && !StartsWith(base, "wss://") && !StartsWith(base, "http://")
           && !StartsWith(base, "https://")) ==> url == "ws://" + StripTrailingSlash(base) + "/ws")
  {
    if StartsWith(base, "https://") {
      SchemesDiffer(base);
      ReplaceFirstAtStart(base, "https://", "wss://");
    }
    if StartsWith(base, "http://") {
      SchemesDiffer(base);
      ReplaceFirstAtStart(base, "http://", "ws://");
    }
  }

  /** Whatever the base, the socket URL has a websocket scheme, and it is the secure
      one exactly when the base is `https://` or `wss://`. */
  lemma WsUrlScheme(base: string)
    ensures var url := WsUrlOf(base);
      && (StartsWith(url, "ws://") || StartsWith(url, "wss://"))
      && (StartsWith(url, "wss://") <==> StartsWith(base, "wss://") || StartsWith(base, "https://"))
  {
    var url := WsUrlOf(base);
    WsUrlCases(base);
    SchemesDiffer(base);
    if StartsWith(base, "ws://") {
      StripPrefixKept(base, "ws://");
      SchemesDiffer(url);
    } else if StartsWith(base, "wss://") {
      StripPrefixKept(base, "wss://");
    } else if StartsWith(base, "https://") {
      StripPrefixKept("wss://" + base[8..], "wss://");
    } else if StartsWith(base, "http://") {
      StripPrefixKept("ws://" + base[7..], "ws://");
      SchemesDiffer(url);
    } else {
      assert url[..5] == "ws://";
      SchemesDiffer(url);
    }
  }

  /** Stripping a slash off a string that has a scheme (ending in `//`) followed by
      more text keeps the scheme; on the bare scheme it leaves all but its last slash. */
  lemma StripPrefixKept(s: string, scheme: string)
    requires StartsWith(s, scheme) && EndsWith(scheme, "//")
    ensures StartsWith(StripTrailingSlash(s) + "/ws", scheme)
  {
    var r := StripTrailingSlash(s);
    if |s| == |scheme| {
      assert s == scheme;
      assert r == scheme[..|scheme| - 1];
      assert (r + "/ws")[..|scheme|] == r + "/";
      assert scheme[..|scheme| - 1] + "/" == scheme by {
        assert scheme[|scheme| - 1] == '/';
      }
    } else {
      assert (r + "/ws")[..|scheme|] == s[..|scheme|];
    }
  }

  // ---------------------------------------------------------------- display name

  /** `value.trim() || "Anonymous"`. */
  function TrimmedOrAnonymous(s: string): string {
    var t := JsTrim(s);
    if t != "" then t else ANONYMOUS
  }

  /** The room page's display name: the `name` query parameter. */
  function DisplayName(name: Option<string>): string {
    TrimmedOrAnonymous(name.GetOr(""))
  }

  /** The display name is never empty and never padded: it is the trimmed parameter
      when that has a non-whitespace character, and `Anonymous` when it is absent or
      all whitespace. */
  lemma DisplayNameCases(name: Option<string>)
    ensures var d := DisplayName(name);
      && d != "" && JsTrim(d) == d
      && (name.None? || (forall i :: 0 <= i < |name.value| ==> JsWhitespace(name.value[i])) ==> d == ANONYMOUS)
      && (name.Some? && (exists i :: 0 <= i < |name.value| && !JsWhitespace(name.value[i])) ==>
            d == JsTrim(name.value))
  {
    var s := name.GetOr("");
    TrimEmptyIffAll(JsWhitespace, s);
    TrimIdempotent(JsWhitespace, s);
    assert JsTrim(ANONYMOUS) == ANONYMOUS by {
      assert !JsWhitespace(ANONYMOUS[0]) && !JsWhitespace(ANONYMOUS[|ANONYMOUS| - 1]);
      assert TrimStart(JsWhitespace, ANONYMOUS) == ANONYMOUS;
    }
  }

  // ---------------------------------------------------------------- signal payload

  /** `{ ...payload, targetUserId }` as the socket serialises it. */
  function SignalPayload(payload: LinkedMap<Json>, targetUserId: string): LinkedMap<Json> {
    Put(payload, TARGET_USER_ID, JString(targetUserId))
  }

  /** The explicit target overrides any `targetUserId` already in the payload, and every
      other field is sent as given. */
  lemma SignalPayloadFields(payload: LinkedMap<Json>, targetUserId: string)
    ensures Get(SignalPayload(payload, targetUserId), TARGET_USER_ID) == Some(JString(targetUserId))
    ensures forall k :: k != TARGET_USER_ID ==> Get(SignalPayload(payload, targetUserId), k) == Get(payload, k)
    ensures DistinctKeys(payload) ==> DistinctKeys(SignalPayload(payload, targetUserId))
  {
    PutGet(payload, TARGET_USER_ID, JString(targetUserId));
    if DistinctKeys(payload) {
      PutDistinct(payload, TARGET_USER_ID, JString(targetUserId));
    }
  }

  /** End to end: the router reads the client's explicit target, and forwards every
      other field of the client's payload unchanged, stamped with the sender. */
  lemma SignalPayloadReachesTarget(payload: LinkedMap<Json>, targetUserId: string, fromUserId: string)
    requires DistinctKeys(payload)
    ensures var inbound := Some(JObject(SignalPayload(payload, targetUserId)));
      var fw := Forwarded(inbound, fromUserId);
      && TextField(inbound, TARGET_USER_ID) == Some(targetUserId)
      && Get(fw, TARGET_USER_ID).None?
      && Get(fw, FROM_USER_ID) == Some(VString(fromUserId))
      && forall k :: k != TARGET_USER_ID && k != FROM_USER_ID ==> Get(fw, k) == Wrap(Get(payload, k))
  {
    var fields := SignalPayload(payload, targetUserId);
    var inbound := Some(JObject(fields));
    SignalPayloadFields(payload, targetUserId);
    assert TextField(inbound, TARGET_USER_ID) == Some(targetUserId) by {
      assert Field(inbound, TARGET_USER_ID) == Some(JString(targetUserId));
    }
    assert InboundFields(inbound) == fields;
    ForwardedContents(inbound, fromUserId);
    var fw := Forwarded(inbound, fromUserId);
    forall k | k != TARGET_USER_ID && k != FROM_USER_ID
      ensures Get(fw, k) == Wrap(Get(payload, k))
    {
      assert Get(fw, k) == Wrap(Get(fields, k));
      assert Get(fields, k) == Get(payload, k);
    }
  }
}
