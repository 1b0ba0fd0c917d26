/** Removing credentials from URLs that appear in text. */
module Scrub {
  import opened Wrappers
  import opened Text

  const REDACTION := "[redacted]"

  predicate MarkerAt(s: string, i: nat) {
    i + 3 <= |s| && s[i] == ':' && s[i + 1] == '/' && s[i + 2] == '/'
  }

  /** Position of the first `://`. */
  function FindMarker(s: string): (r: Option<nat>)
    ensures r.Some? ==> r.value + 3 <= |s| && MarkerAt(s, r.value) && forall i | 0 <= i < r.value :: !MarkerAt(s, i)
    ensures r.None? ==> forall i: nat :: !MarkerAt(s, i)
  {
    if s == "" then None
    else if MarkerAt(s, 0) then Some(0)
    else
      assert forall i: nat | 0 < i :: MarkerAt(s, i) == MarkerAt(s[1..], i - 1);
      match FindMarker(s[1..])
      case Some(i) => Some(i + 1)
      case None => None
  }

  predicate EndsAuthority(c: char) {
    c == '/' || c == '?' || c == '#' || IsWhitespace(c)
  }

  function AuthorityLength(after: string): (end: nat)
    ensures end <= |after|
    ensures forall i | 0 <= i < end :: !EndsAuthority(after[i])
    ensures end < |after| ==> EndsAuthority(after[end])
  {
    match FindIndex(after, EndsAuthority)
    case Some(i) => i
    case None => |after|
  }

  /** Position of the last `@`. */
  function LastAt(authority: string): (r: Option<nat>)
    ensures r.Some? ==> r.value < |authority| && authority[r.value] == '@' && '@' !in authority[r.value + 1..]
    ensures r.None? <==> '@' !in authority
  {
    if authority == "" then None
    else if authority[|authority| - 1] == '@' then Some(|authority| - 1)
    else
      var init := authority[..|authority| - 1];
      assert authority == init + [authority[|authority| - 1]];
      var r := LastAt(init);
      assert r.Some? ==> authority[r.value + 1..] == init[r.value + 1..] + [authority[|authority| - 1]];
      r
  }

  function RedactAuthority(authority: string): string {
    match LastAt(authority)
    case Some(at) => REDACTION + "@" + authority[at + 1..]
    case None => authority
  }

  // ---- What scrubbing means ----

  /** Text up to and including a `://`, the authority after it, and everything else. */
  datatype Piece = Piece(before: string, authority: string, rest: string)

  function NextPiece(text: string): (r: Option<Piece>)
    ensures r.Some? ==>
              && text == r.value.before + r.value.authority + r.value.rest
              && |r.value.before| >= 3 && |r.value.rest| < |text|
              && EndsAtMarker(r.value.before) && IsAuthority(r.value.authority) && StopsAuthority(r.value.rest)
    ensures r.None? ==> FindMarker(text).None?
  {
    match FindMarker(text)
    case None => None
    case Some(marker) =>
      var after := text[marker + 3..];
      var end := AuthorityLength(after);
      MarkerStaysFirst(text, marker, "");
      assert text[..marker + 3] + "" == text[..marker + 3];
      assert text == text[..marker + 3] + after;
      Some(Piece(text[..marker + 3], after[..end], after[end..]))
  }

  ghost predicate EndsAtMarker(before: string) {
    |before| >= 3 && FindMarker(before) == Some(|before| - 3)
  }

  ghost predicate IsAuthority(authority: string) {
    forall i | 0 <= i < |authority| :: !EndsAuthority(authority[i])
  }

  /** Text that cannot prolong an authority. */
  ghost predicate StopsAuthority(tail: string) {
    tail == "" || EndsAuthority(tail[0])
  }

  /** The text with the userinfo of every scanned authority replaced. */
  function Scrubbed(text: string): string
    decreases |text|
  {
    match NextPiece(text)
    case None => text
    case Some(piece) => piece.before + RedactAuthority(piece.authority) + Scrubbed(piece.rest)
  }

  /** The authorities the scan visits, in order. */
  ghost function Authorities(text: string): seq<string>
    decreases |text|
  {
    match NextPiece(text)
    case None => []
    case Some(piece) => [piece.authority] + Authorities(piece.rest)
  }

  /** No userinfo, or userinfo that is only the redaction marker. */
  ghost predicate Harmless(authority: string) {
    match LastAt(authority)
    case None => true
    case Some(at) => authority[..at] == REDACTION
  }

  /** Scans the text from marker to marker, and computes what scrubbing means. */
  method ScrubUrlUserinfo(text: string) returns (out: string)
    ensures out == Scrubbed(text)
  {
    hide *;
    out := "";
    var rest := text;
    var marker := FindMarker(rest);
    while marker.Some?
      invariant marker == FindMarker(rest)
      invariant out + Scrubbed(rest) == Scrubbed(text)
      decreases |rest|
    {
      ScrubScan(rest, marker.value);
      ghost var done := out;
      out := out + rest[..marker.value + 3];
      var after := rest[marker.value + 3..];
      var authorityEnd := AuthorityLength(after);
      var authority := after[..authorityEnd];
      out := out + RedactAuthority(authority);
      Associates(done, rest[..marker.value + 3], RedactAuthority(authority), Scrubbed(after[authorityEnd..]));
      rest := after[authorityEnd..];
      marker := FindMarker(rest);
    }
    NothingToScrub(rest);
    out := out + rest;
  }

  /** One turn of the loop. */
  lemma ScrubScan(rest: string, marker: nat)
    requires FindMarker(rest) == Some(marker)
    ensures var after := rest[marker + 3..];
            && AuthorityLength(after) <= |after|
            && Scrubbed(rest) == rest[..marker + 3] + RedactAuthority(after[..AuthorityLength(after)])
                                 + Scrubbed(after[AuthorityLength(after)..])
  {
    hide EndsAuthority, AuthorityLength, FindMarker, EndsAtMarker, IsAuthority, StopsAuthority, RedactAuthority;
  }

  lemma NothingToScrub(rest: string)
    requires FindMarker(rest).None?
    ensures Scrubbed(rest) == rest
  {
    hide EndsAuthority, AuthorityLength, FindMarker, EndsAtMarker, IsAuthority, StopsAuthority, RedactAuthority;
  }

  lemma Associates(a: string, b: string, c: string, d: string)
    ensures a + b + c + d == a + (b + c + d)
  {
  }

  // ---- Laws ----

  lemma MarkerStaysFirst(s: string, marker: nat, tail: string)
    requires FindMarker(s) == Some(marker)
    ensures FindMarker(s[..marker + 3] + tail) == Some(marker)
  {
    var t := s[..marker + 3] + tail;
    hide FindMarker;
    assert forall i: nat | i <= marker :: MarkerAt(t, i) == MarkerAt(s, i);
    var found := FindMarker(t);
    assert found.Some?;
    assert found.value <= marker;
  }

  lemma AuthorityStops(authority: string, tail: string)
    requires IsAuthority(authority) && StopsAuthority(tail)
    ensures AuthorityLength(authority + tail) == |authority|
  {
    hide EndsAuthority, AuthorityLength;
    var text := authority + tail;
    var end := AuthorityLength(text);
    assert forall i | 0 <= i < |authority| :: text[i] == authority[i];
    assert tail != "" ==> text[|authority|] == tail[0];
  }

  lemma PartsOf(a: string, b: string)
    ensures (a + b)[..|a|] == a && (a + b)[|a|..] == b
  {
  }

  lemma FoundPiece(text: string, marker: nat, authority: string, rest: string)
    requires FindMarker(text) == Some(marker)
    requires var after := text[marker + 3..];
             after[..AuthorityLength(after)] == authority && after[AuthorityLength(after)..] == rest
    ensures NextPiece(text) == Some(Piece(text[..marker + 3], authority, rest))
  {
    hide FindMarker, AuthorityLength;
  }

  /** A text assembled from pieces is scanned as those pieces. */
  lemma PieceReads(before: string, authority: string, rest: string)
    requires EndsAtMarker(before) && IsAuthority(authority) && StopsAuthority(rest)
    ensures NextPiece(before + authority + rest) == Some(Piece(before, authority, rest))
  {
    hide FindMarker, EndsAuthority, AuthorityLength, IsAuthority, StopsAuthority, NextPiece;
    var marker, after := |before| - 3, authority + rest;
    assert before[..marker + 3] == before;
    MarkerStaysFirst(before, marker, after);
    AuthorityStops(authority, rest);
    PartsOf(before, after);
    PartsOf(authority, rest);
    FoundPiece(before + after, marker, authority, rest);
    Associates("", before, authority, rest);
    assert before + authority + rest == before + after;
  }

  /** What follows an authority still follows it once scrubbed. */
  lemma ScrubbedStops(tail: string)
    requires StopsAuthority(tail)
    ensures StopsAuthority(Scrubbed(tail))
  {
    hide EndsAuthority, RedactAuthority;
    var piece := NextPiece(tail);
    if piece.Some? {
      assert Scrubbed(tail)[0] == piece.value.before[0] == tail[0];
    }
  }

  lemma LastAtOfLonger(init: string, c: char)
    ensures LastAt(init + [c]) == if c == '@' then Some(|init|) else LastAt(init)
  {
    assert (init + [c])[..|init|] == init;
  }

  lemma {:induction false} AtRedacted(userinfo: string, host: string)
    requires '@' !in host
    ensures LastAt(userinfo + "@" + host) == Some(|userinfo|)
  {
    hide LastAt;
    if host == "" {
      LastAtOfLonger(userinfo, '@');
      assert userinfo + "@" + host == userinfo + "@";
    } else {
      var init, last := host[..|host| - 1], host[|host| - 1];
      AtRedacted(userinfo, init);
      LastAtOfLonger(userinfo + "@" + init, last);
      assert userinfo + "@" + host == userinfo + "@" + init + [last];
      assert last in host;
    }
  }

  lemma RedactedParts(userinfo: string, host: string)
    ensures (userinfo + "@" + host)[|userinfo| + 1..] == host
    ensures (userinfo + "@" + host)[..|userinfo|] == userinfo
  {
  }

  lemma RedactionStays(authority: string)
    ensures RedactAuthority(RedactAuthority(authority)) == RedactAuthority(authority)
    ensures Harmless(RedactAuthority(authority))
    ensures RedactAuthority(authority) == authority <==> Harmless(authority)
  {
    hide REDACTION;
    if LastAt(authority).Some? {
      var at := LastAt(authority).value;
      var host := authority[at + 1..];
      assert authority == authority[..at] + "@" + host;
      AtRedacted(REDACTION, host);
      RedactedParts(REDACTION, host);
      if RedactAuthority(authority) == authority {
        assert authority[..at] == REDACTION;
      }
    }
  }

  lemma MarkerIsAuthority()
    ensures IsAuthority(REDACTION + "@")
  {
    var marker := REDACTION + "@";
    forall i | 0 <= i < |marker|
      ensures !EndsAuthority(marker[i])
    {
      assert marker[i] == '[' || marker[i] == ']' || marker[i] == '@' || 'a' <= marker[i] <= 'z';
    }
  }

  lemma RedactedIsAuthority(authority: string)
    requires IsAuthority(authority)
    ensures IsAuthority(RedactAuthority(authority))
  {
    hide LastAt, REDACTION, EndsAuthority;
    MarkerIsAuthority();
    if LastAt(authority).Some? {
      var marker, host := REDACTION + "@", authority[LastAt(authority).value + 1..];
      var redacted := marker + host;
      forall i | 0 <= i < |redacted|
        ensures !EndsAuthority(redacted[i])
      {
        assert redacted[i] == if i < |marker| then marker[i] else host[i - |marker|];
      }
    }
  }

  /** Scrubbing a text replaces its pieces one by one. */
  lemma ScrubStep(text: string)
    requires NextPiece(text).Some?
    ensures var piece := NextPiece(text).value;
            NextPiece(Scrubbed(text)) ==
            Some(Piece(piece.before, RedactAuthority(piece.authority), Scrubbed(piece.rest)))
  {
    hide EndsAuthority, RedactAuthority, EndsAtMarker, IsAuthority, StopsAuthority;
    var piece := NextPiece(text).value;
    RedactedIsAuthority(piece.authority);
    ScrubbedStops(piece.rest);
    PieceReads(piece.before, RedactAuthority(piece.authority), Scrubbed(piece.rest));
  }

  /** Scrubbing twice is scrubbing once, and what it leaves carries no userinfo but the marker. */
  lemma {:induction false} ScrubIsIdempotent(text: string)
    ensures Scrubbed(Scrubbed(text)) == Scrubbed(text)
    ensures forall authority | authority in Authorities(Scrubbed(text)) :: Harmless(authority)
    decreases |text|
  {
    hide EndsAuthority, RedactAuthority, EndsAtMarker, IsAuthority, StopsAuthority, Harmless, NextPiece;
    if NextPiece(text).Some? {
      var piece := NextPiece(text).value;
      ScrubStep(text);
      ScrubIsIdempotent(piece.rest);
      RedactionStays(piece.authority);
    }
  }

  /** Text is left as it is exactly when every authority the scan visits is already harmless. */
  lemma {:induction false} ScrubFixedExactly(text: string)
    ensures Scrubbed(text) == text <==> forall authority | authority in Authorities(text) :: Harmless(authority)
    decreases |text|
  {
    hide EndsAuthority, RedactAuthority, EndsAtMarker, IsAuthority, StopsAuthority, Harmless, NextPiece;
    if NextPiece(text).Some? {
      var piece := NextPiece(text).value;
      ScrubStep(text);
      ScrubFixedExactly(piece.rest);
      RedactionStays(piece.authority);
      var first, others := piece.authority, Authorities(piece.rest);
      assert (forall authority | authority in [first] + others :: Harmless(authority)) <==>
             Harmless(first) && forall authority | authority in others :: Harmless(authority) by {
        assert first in [first] + others && forall authority | authority in others :: authority in [first] + others;
      }
    }
  }

  // ---- What scrubbing does to a URL ----

  /** Text without any of the characters that end the authority of a URL. */
  ghost predicate WithoutStops(text: string) {
    forall c | c in text :: c != '/' && c != '?' && c != '#' && !IsWhitespace(c)
  }

  /** What can come after an authority: nothing, or text that begins with one of those characters. */
  ghost predicate AfterAuthority(tail: string) {
    tail != "" ==> tail[0] == '/' || tail[0] == '?' || tail[0] == '#' || IsWhitespace(tail[0])
  }

  ghost predicate ReadsMarker(text: string, i: nat) {
    i + 3 <= |text| && text[i..i + 3] == "://"
  }

  /** Text without a `://` before position `end`. */
  ghost predicate NoMarkerBefore(text: string, end: nat) {
    forall i: nat | i < end :: !ReadsMarker(text, i)
  }

  /** Text that ends in its only `://`. */
  ghost predicate UpToMarker(before: string) {
    |before| >= 3 && ReadsMarker(before, |before| - 3) && NoMarkerBefore(before, |before| - 3)
  }

  lemma MarkerReads(text: string, i: nat)
    ensures MarkerAt(text, i) <==> ReadsMarker(text, i)
  {
    if i + 3 <= |text| {
      var here := text[i..i + 3];
      assert here[0] == text[i] && here[1] == text[i + 1] && here[2] == text[i + 2];
      assert here == [text[i], text[i + 1], text[i + 2]];
    }
  }

  /** The first marker found is where the text first reads `://`. */
  lemma FindMarkerExact(text: string)
    ensures FindMarker(text).None? <==> NoMarkerBefore(text, |text|)
    ensures forall i: nat :: FindMarker(text) == Some(i) <==> ReadsMarker(text, i) && NoMarkerBefore(text, i)
  {
    hide MarkerAt, ReadsMarker;
    forall i: nat
      ensures MarkerAt(text, i) <==> ReadsMarker(text, i)
    {
      MarkerReads(text, i);
    }
    var found := FindMarker(text);
    hide FindMarker;
    if found.Some? {
      assert ReadsMarker(text, found.value) && NoMarkerBefore(text, found.value);
    }
  }

  lemma WithoutStopsIsAuthority(text: string)
    requires WithoutStops(text)
    ensures IsAuthority(text)
  {
    assert forall i | 0 <= i < |text| :: text[i] in text;
  }

  /** What stands before the last `@` of a URL's authority is replaced, and the scan goes on after the
      authority. */
  lemma UserinfoIsReplaced(before: string, userinfo: string, host: string, tail: string)
    requires UpToMarker(before) && WithoutStops(userinfo) && WithoutStops(host) && '@' !in host
    requires AfterAuthority(tail)
    ensures Scrubbed(before + (userinfo + "@" + host) + tail) == before + (REDACTION + "@" + host) + Scrubbed(tail)
  {
    var authority := userinfo + "@" + host;
    FindMarkerExact(before);
    assert WithoutStops(authority);
    WithoutStopsIsAuthority(authority);
    hide EndsAuthority, NextPiece, LastAt, IsAuthority, StopsAuthority, EndsAtMarker;
    assert StopsAuthority(tail) by {
      TailStops(tail);
    }
    PieceReads(before, authority, tail);
    AtRedacted(userinfo, host);
    RedactedParts(userinfo, host);
  }

  lemma TailStops(tail: string)
    requires AfterAuthority(tail)
    ensures StopsAuthority(tail)
  {
  }

  /** An authority without `@` is left alone, and so is text without a URL. */
  lemma HostIsKept(before: string, host: string, tail: string)
    requires UpToMarker(before) && WithoutStops(host) && '@' !in host && AfterAuthority(tail)
    ensures Scrubbed(before + host + tail) == before + host + Scrubbed(tail)
  {
    FindMarkerExact(before);
    WithoutStopsIsAuthority(host);
    TailStops(tail);
    hide EndsAuthority, NextPiece, LastAt, IsAuthority, StopsAuthority, EndsAtMarker;
    PieceReads(before, host, tail);
  }

  lemma PlainTextIsKept(text: string)
    requires NoMarkerBefore(text, |text|)
    ensures Scrubbed(text) == text
  {
    FindMarkerExact(text);
    NothingToScrub(text);
  }

  /** A URL with a user name and a password. */
  lemma PasswordIsReplaced()
    ensures Scrubbed("http://u:p@h") == "http://" + (REDACTION + "@" + "h")
  {
    hide Scrubbed, REDACTION, IsWhitespace;
    var before := "http://";
    assert before[4..7] == "://" && before[0] == 'h' && before[1] == 't' && before[2] == 't' && before[3] == 'p';
    assert forall i: nat | i < 4 :: before[i..i + 3][0] == before[i];
    PlainTextIsKept("");
    PasswordWithoutStops();
    UserinfoIsReplaced(before, "u:p", "h", "");
    assert before + ("u:p" + "@" + "h") + "" == "http://u:p@h";
  }

  lemma PasswordWithoutStops()
    ensures WithoutStops("u:p") && WithoutStops("h") && '@' !in "h"
  {
  }

  // ---- Where userinfo ends ----

  /** Redaction up to the first `@` instead of the last. */
  function RedactToFirst(authority: string): string {
    match FindIndex(authority, (c: char) => c == '@')
    case Some(at) => REDACTION + "@" + authority[at + 1..]
    case None => authority
  }

  /** The two readings agree exactly on authorities with at most one `@`. */
  lemma FirstIsLastExactly(authority: string)
    ensures RedactToFirst(authority) == RedactAuthority(authority) <==>
            forall i, j | 0 <= i < j < |authority| :: !(authority[i] == '@' && authority[j] == '@')
  {
    var first, last := FindIndex(authority, (c: char) => c == '@'), LastAt(authority);
    if last.Some? {
      assert '@' in authority && first.Some?;
      if first.value < last.value {
        assert |RedactToFirst(authority)| > |RedactAuthority(authority)|;
      } else {
        forall i, j | 0 <= i < j < |authority| && authority[i] == '@'
          ensures authority[j] != '@'
        {
          assert authority[j] == authority[last.value + 1..][j - last.value - 1];
        }
      }
    }
  }

  /** A password that contains an `@`: the first one ends too early and leaves part of it. */
  lemma FirstLeavesPassword()
    ensures RedactAuthority("u:p@q@h") == REDACTION + "@h"
    ensures RedactToFirst("u:p@q@h") == REDACTION + "@q@h"
  {
    var authority := "u:p@q@h";
    assert LastAt(authority) == Some(5) by {
      assert '@' !in authority[6..];
    }
    assert FindIndex(authority, (c: char) => c == '@') == Some(3);
    assert authority[6..] == "h" && authority[4..] == "q@h";
  }
}
