/**
 * The lobby form's submit handler: it normalises the display name and the room id
 * and builds the path of the room page. The random placeholder id and
 * `encodeURIComponent` are parameters.
 */
module LobbyPage {
  import opened Text
  import opened Options
  import opened RoomPage

  /** `(roomId.trim() || placeholderRoomId).toLowerCase()`. */
  function FinalRoomId(roomId: string, placeholderRoomId: string): string {
    var t := JsTrim(roomId);
    ToLowerAscii(if t != "" then t else placeholderRoomId)
  }

  /** `displayName.trim() || "Anonymous"`. */
  function FinalDisplayName(displayName: string): string {
    TrimmedOrAnonymous(displayName)
  }

  /** The path `onSubmit` navigates to. */
  function RoomPath(displayName: string, roomId: string, placeholderRoomId: string,
                    encode: string -> string): string {
    "/room/" + FinalRoomId(roomId, placeholderRoomId) + "?name=" + encode(FinalDisplayName(displayName))
  }

  /** A room id with a non-whitespace character is trimmed and then lower-cased; a blank
      one is replaced by the lower-cased placeholder. The result has no upper-case
      ASCII letter. */
  lemma FinalRoomIdCases(roomId: string, placeholderRoomId: string)
    ensures var r := FinalRoomId(roomId, placeholderRoomId);
      && ((exists i :: 0 <= i < |roomId| && !JsWhitespace(roomId[i])) ==> r == ToLowerAscii(JsTrim(roomId)))
      && ((forall i :: 0 <= i < |roomId| ==> JsWhitespace(roomId[i])) ==> r == ToLowerAscii(placeholderRoomId))
      && forall i :: 0 <= i < |r| ==> !('A' <= r[i] <= 'Z')
  {
    TrimEmptyIffAll(JsWhitespace, roomId);
    var t := JsTrim(roomId);
    ToLowerAsciiIsLower(if t != "" then t else placeholderRoomId);
  }

  /** A non-blank room id is normalised once and for all: typing the resulting id into
      the lobby again leads to the same room, whatever the placeholder. */
  lemma FinalRoomIdIsNormal(roomId: string, placeholderRoomId: string, otherPlaceholder: string)
    requires exists i :: 0 <= i < |roomId| && !JsWhitespace(roomId[i])
    ensures FinalRoomId(FinalRoomId(roomId, placeholderRoomId), otherPlaceholder) == FinalRoomId(roomId, placeholderRoomId)
  {
    var t := JsTrim(roomId);
    assert t != "" by {
      TrimEmptyIffAll(JsWhitespace, roomId);
    }
    var r := ToLowerAscii(t);
    ToLowerAsciiIsLower(t);
    assert FinalRoomId(roomId, placeholderRoomId) == r;
    assert JsTrim(r) == r by {
      LowerKeepsTrim(t);
      TrimIdempotent(JsWhitespace, roomId);
    }
    FinalRoomIdOfNormal(r, otherPlaceholder);
  }

  lemma FinalRoomIdOfNormal(r: string, placeholderRoomId: string)
    requires r != "" && JsTrim(r) == r && ToLowerAscii(r) == r
    ensures FinalRoomId(r, placeholderRoomId) == r
  {
  }

  /** ASCII lower-casing commutes with JavaScript trimming: it maps whitespace to itself
      and nothing else to whitespace. */
  lemma LowerKeepsTrim(s: string)
    ensures JsTrim(ToLowerAscii(s)) == ToLowerAscii(JsTrim(s))
  {
    TrimStartLower(s);
    TrimEndLower(TrimStart(JsWhitespace, s));
  }

  lemma LowerKeepsWhitespace(c: char)
    ensures JsWhitespace(AsciiLower(c)) <==> JsWhitespace(c)
  {
    if 'A' <= c <= 'Z' {
      assert 'a' <= AsciiLower(c) <= 'z';
    }
  }

  lemma {:induction false} TrimStartLower(s: string)
    ensures TrimStart(JsWhitespace, ToLowerAscii(s)) == ToLowerAscii(TrimStart(JsWhitespace, s))
    decreases |s|
  {
    if s != [] {
      var l := ToLowerAscii(s);
      LowerKeepsWhitespace(s[0]);
      assert l[1..] == ToLowerAscii(s[1..]);
      TrimStartLower(s[1..]);
      if JsWhitespace(s[0]) {
        assert TrimStart(JsWhitespace, l) == TrimStart(JsWhitespace, l[1..]);
        assert TrimStart(JsWhitespace, s) == TrimStart(JsWhitespace, s[1..]);
      } else {
        assert TrimStart(JsWhitespace, l) == l;
        assert TrimStart(JsWhitespace, s) == s;
      }
    }
  }

  lemma {:induction false} TrimEndLower(s: string)
    ensures TrimEnd(JsWhitespace, ToLowerAscii(s)) == ToLowerAscii(TrimEnd(JsWhitespace, s))
    decreases |s|
  {
    if s != [] {
      var l := ToLowerAscii(s);
      LowerKeepsWhitespace(s[|s| - 1]);
      assert l[..|s| - 1] == ToLowerAscii(s[..|s| - 1]);
      TrimEndLower(s[..|s| - 1]);
      if JsWhitespace(s[|s| - 1]) {
        assert TrimEnd(JsWhitespace, l) == TrimEnd(JsWhitespace, l[..|s| - 1]);
        assert TrimEnd(JsWhitespace, s) == TrimEnd(JsWhitespace, s[..|s| - 1]);
      } else {
        assert TrimEnd(JsWhitespace, l) == l;
        assert TrimEnd(JsWhitespace, s) == s;
      }
    }
  }

  /** The path names the room and carries the encoded name. */
  lemma RoomPathShape(displayName: string, roomId: string, placeholderRoomId: string, encode: string -> string)
    ensures var path := RoomPath(displayName, roomId, placeholderRoomId, encode);
      && StartsWith(path, "/room/")
      && path[6..] == FinalRoomId(roomId, placeholderRoomId) + "?name=" + encode(FinalDisplayName(displayName))
  {
    PathParts(FinalRoomId(roomId, placeholderRoomId), encode(FinalDisplayName(displayName)));
  }

  lemma PathParts(room: string, encodedName: string)
    ensures StartsWith("/room/" + room + "?name=" + encodedName, "/room/")
    ensures ("/room/" + room + "?name=" + encodedName)[6..] == room + "?name=" + encodedName
  {
    assert "/room/" + room + "?name=" + encodedName == "/room/" + (room + "?name=" + encodedName);
  }

  /** The name is the trimmed input, or `Anonymous` when the input is blank. */
  lemma FinalDisplayNameCases(displayName: string)
    ensures (forall i :: 0 <= i < |displayName| ==> JsWhitespace(displayName[i])) ==>
      FinalDisplayName(displayName) == ANONYMOUS
    ensures (exists i :: 0 <= i < |displayName| && !JsWhitespace(displayName[i])) ==>
      FinalDisplayName(displayName) == JsTrim(displayName)
  {
    TrimEmptyIffAll(JsWhitespace, displayName);
  }

  /** The name the lobby puts in the path is the name the room page shows, whenever the
      query string decodes what `encode` produced. */
  lemma LobbyNameReachesRoomPage(displayName: string, encode: string -> string, decode: string -> string)
    requires decode(encode(FinalDisplayName(displayName))) == FinalDisplayName(displayName)
    ensures DisplayName(Some(decode(encode(FinalDisplayName(displayName))))) == FinalDisplayName(displayName)
  {
    DisplayNameCases(Some(displayName));
    var d := FinalDisplayName(displayName);
    DisplayNameCases(Some(d));
    assert exists i :: 0 <= i < |d| && !JsWhitespace(d[i]) by {
      TrimEmptyIffAll(JsWhitespace, d);
    }
  }
}
