/**
  The link resolver: `getIdFromUrl` matches a dumpert.nl mediabase link against

      ^https:\/\/www.dumpert.nl\/mediabase\/([0-9a-fA-F]+)\/([0-9a-fA-F]+)\/.*

  and returns the two hexadecimal groups joined by an underscore, or null.
  Both dots of `www.dumpert.nl` are unescaped, so each stands for any one
  UTF-16 code unit except a line terminator: any character of the Basic
  Multilingual Plane other than a line terminator. The pattern has no `$`:
  only the prefix up to and including the slash after the second group must
  match.
 */
module LinkResolver {
  import opened Wrappers

  predicate IsHexDigit(c: char) {
    ('0' <= c <= '9') || ('a' <= c <= 'f') || ('A' <= c <= 'F')
  }

  predicate AllHex(s: string) {
    forall i :: 0 <= i < |s| ==> IsHexDigit(s[i])
  }

  /** The characters a JavaScript `.` does not match (no `s` flag). */
  predicate IsLineTerminator(c: char) {
    c == '\n' || c == '\r' || c == '\U{2028}' || c == '\U{2029}'
  }

  /**
    The characters a JavaScript `.` (no `u` flag) matches as a whole. JavaScript
    strings are UTF-16, and without `u` the `.` takes one code unit. A character
    outside the Basic Multilingual Plane is two code units: the `.` takes the
    first, and the next literal of the pattern then meets the second and fails.
   */
  predicate IsWildcardChar(c: char) {
    !IsLineTerminator(c) && (c as int) < 0x1_0000
  }

  const Scheme: string := "https://www"
  const Host: string := "dumpert"
  const MediabasePath: string := "nl/mediabase/"

  /** Length of `https://www` + any + `dumpert` + any + `nl/mediabase/`. */
  const PrefixLength: nat := |Scheme| + 1 + |Host| + 1 + |MediabasePath|

  predicate HasLinkPrefix(url: string) {
    && |url| >= PrefixLength
    && url[..11] == Scheme
    && IsWildcardChar(url[11])
    && url[12..19] == Host
    && IsWildcardChar(url[19])
    && url[20..33] == MediabasePath
  }

  /** Length of the longest run of hex digits at the start of `s` (what the greedy `[0-9a-fA-F]+` takes). */
  function HexRunLength(s: string): (n: nat)
    ensures n <= |s|
    ensures AllHex(s[..n])
    ensures n < |s| ==> !IsHexDigit(s[n])
  {
    if s == [] || !IsHexDigit(s[0]) then 0 else 1 + HexRunLength(s[1..])
  }

  /** A media identifier: hex digits everywhere except one underscore, with digits on both sides. */
  ghost predicate IsMediaId(id: string) {
    exists k :: 0 < k < |id| - 1 && id[k] == '_' &&
      forall j :: 0 <= j < |id| && j != k ==> IsHexDigit(id[j])
  }

  /** The two groups after the fixed prefix: `<hex1>/<hex2>/`, each group the greedy run of hex digits. */
  function GroupsId(rest: string): (r: Option<string>)
    ensures r.Some? ==> IsMediaId(r.value) && |r.value| < |rest|
  {
    var n1 := HexRunLength(rest);
    if n1 == 0 || n1 == |rest| || rest[n1] != '/' then None
    else
      var tail := rest[n1 + 1..];
      var n2 := HexRunLength(tail);
      if n2 == 0 || n2 == |tail| || tail[n2] != '/' then None
      else
        var id := rest[..n1] + "_" + tail[..n2];
        assert id[n1] == '_';
        assert forall j :: 0 <= j < |id| && j != n1 ==> IsHexDigit(id[j]) by {
          forall j | 0 <= j < |id| && j != n1 ensures IsHexDigit(id[j]) {
            if j < n1 { assert id[j] == rest[..n1][j]; }
            else { assert id[j] == tail[..n2][j - n1 - 1]; }
          }
        }
        Some(id)
  }

  /** getIdFromUrl: the identifier `<hex1>_<hex2>` of a mediabase link, or None (null). */
  function IdFromUrl(url: string): (r: Option<string>)
    ensures r.Some? ==> IsMediaId(r.value) && |r.value| < |url|
  {
    if !HasLinkPrefix(url) then None else GroupsId(url[PrefixLength..])
  }

  // ---------------------------------------------------------------------------
  // An independent description of the links the pattern accepts.

  /** `https://www` + c1 + `dumpert` + c2 + `nl/mediabase/`: the fixed part of a link. */
  function LinkPrefix(c1: char, c2: char): string {
    Scheme + [c1] + Host + [c2] + MediabasePath
  }

  /** The link built from its parts: the two wildcard characters, the two hex groups and any tail. */
  function Link(c1: char, c2: char, hex1: string, hex2: string, tail: string): string {
    LinkPrefix(c1, c2) + (hex1 + "/" + (hex2 + "/" + tail))
  }

  predicate ValidParts(c1: char, c2: char, hex1: string, hex2: string) {
    && IsWildcardChar(c1) && IsWildcardChar(c2)
    && hex1 != [] && AllHex(hex1)
    && hex2 != [] && AllHex(hex2)
  }

  lemma LinkPrefixMatches(c1: char, c2: char, rest: string)
    requires IsWildcardChar(c1) && IsWildcardChar(c2)
    ensures HasLinkPrefix(LinkPrefix(c1, c2) + rest)
    ensures (LinkPrefix(c1, c2) + rest)[PrefixLength..] == rest
  {
    var url := LinkPrefix(c1, c2) + rest;
    assert url[..11] == Scheme;
    assert url[12..19] == Host;
    assert url[20..33] == MediabasePath;
  }

  lemma PrefixShape(url: string)
    requires HasLinkPrefix(url)
    ensures url == LinkPrefix(url[11], url[19]) + url[PrefixLength..]
  {
    assert url == url[..11] + [url[11]] + url[12..19] + [url[19]] + url[20..33] + url[PrefixLength..];
  }

  /** The greedy hex run of a whole hex string is the string. */
  lemma {:induction false} HexRunOfAll(hex: string)
    requires AllHex(hex)
    ensures HexRunLength(hex) == |hex|
  {
    if hex != [] {
      HexRunOfAll(hex[1..]);
    }
  }

  /** The greedy hex run stops at the first character that is not a hex digit. */
  lemma {:induction false} HexRunStops(hex: string, c: char, rest: string)
    requires AllHex(hex) && !IsHexDigit(c)
    ensures HexRunLength(hex + [c] + rest) == |hex|
  {
    if hex != [] {
      assert (hex + [c] + rest)[1..] == hex[1..] + [c] + rest;
      HexRunStops(hex[1..], c, rest);
    }
  }

  lemma IdFromPrefixed(c1: char, c2: char, rest: string)
    requires IsWildcardChar(c1) && IsWildcardChar(c2)
    ensures IdFromUrl(LinkPrefix(c1, c2) + rest) == GroupsId(rest)
  {
    LinkPrefixMatches(c1, c2, rest);
  }

  /** Every link of the described shape resolves to `<hex1>_<hex2>`. */
  lemma IdFromUrlComplete(c1: char, c2: char, hex1: string, hex2: string, tail: string)
    requires ValidParts(c1, c2, hex1, hex2)
    ensures IdFromUrl(Link(c1, c2, hex1, hex2, tail)) == Some(hex1 + "_" + hex2)
  {
    var tl := hex2 + "/" + tail;
    var rest := hex1 + "/" + tl;
    IdFromPrefixed(c1, c2, rest);
    HexRunStops(hex1, '/', tl);
    assert rest[..|hex1|] == hex1;
    assert rest[|hex1| + 1..] == tl;
    HexRunStops(hex2, '/', tail);
    assert tl[..|hex2|] == hex2;
  }

  /** The parts behind a successful match of the two groups. */
  lemma GroupsIdParts(rest: string) returns (hex1: string, hex2: string, tail: string)
    requires GroupsId(rest).Some?
    ensures hex1 != [] && AllHex(hex1) && hex2 != [] && AllHex(hex2)
    ensures rest == hex1 + "/" + (hex2 + "/" + tail)
    ensures GroupsId(rest).value == hex1 + "_" + hex2
  {
    var n1 := HexRunLength(rest);
    var tl := rest[n1 + 1..];
    var n2 := HexRunLength(tl);
    hex1, hex2, tail := rest[..n1], tl[..n2], tl[n2 + 1..];
    assert tl == hex2 + "/" + tail;
    assert rest == hex1 + "/" + tl;
  }

  /** Every identifier returned comes from a link of the described shape. */
  lemma IdFromUrlSound(url: string)
    requires IdFromUrl(url).Some?
    ensures exists c1, c2, hex1, hex2, tail ::
      ValidParts(c1, c2, hex1, hex2) && url == Link(c1, c2, hex1, hex2, tail) &&
      IdFromUrl(url).value == hex1 + "_" + hex2
  {
    PrefixShape(url);
    var hex1, hex2, tail := GroupsIdParts(url[PrefixLength..]);
    assert ValidParts(url[11], url[19], hex1, hex2);
    assert url == Link(url[11], url[19], hex1, hex2, tail);
  }

  /** Too short to hold the prefix, two one-digit groups and two slashes (the empty string among them). */
  lemma IdFromUrlRejectsShort(url: string)
    requires |url| < PrefixLength + 4
    ensures IdFromUrl(url) == None
  {
    if IdFromUrl(url).Some? {
      IdFromUrlSound(url);
    }
  }

  /** A single hex group, with or without its slash, is rejected. */
  lemma IdFromUrlRejectsOneGroup(c1: char, c2: char, hex1: string, slash: bool)
    requires IsWildcardChar(c1) && IsWildcardChar(c2) && AllHex(hex1)
    ensures IdFromUrl(LinkPrefix(c1, c2) + (hex1 + if slash then "/" else "")) == None
  {
    IdFromPrefixed(c1, c2, hex1 + if slash then "/" else "");
    if slash {
      HexRunStops(hex1, '/', "");
      assert hex1 + "/" == hex1 + ['/'] + "";
    } else {
      HexRunOfAll(hex1);
    }
  }

  /** Two hex groups without the slash after the second are rejected. */
  lemma IdFromUrlRejectsMissingTrailingSlash(c1: char, c2: char, hex1: string, hex2: string)
    requires ValidParts(c1, c2, hex1, hex2)
    ensures IdFromUrl(LinkPrefix(c1, c2) + (hex1 + "/" + hex2)) == None
  {
    var rest := hex1 + "/" + hex2;
    IdFromPrefixed(c1, c2, rest);
    HexRunStops(hex1, '/', hex2);
    assert rest[|hex1| + 1..] == hex2;
    HexRunOfAll(hex2);
  }

  /** A character that is neither a hex digit nor `/` right after a hex run in the first group is rejected. */
  lemma IdFromUrlRejectsNonHex(c1: char, c2: char, hex1: string, c: char, tail: string)
    requires IsWildcardChar(c1) && IsWildcardChar(c2) && AllHex(hex1)
    requires !IsHexDigit(c) && c != '/'
    ensures IdFromUrl(LinkPrefix(c1, c2) + (hex1 + [c] + tail)) == None
  {
    IdFromPrefixed(c1, c2, hex1 + [c] + tail);
    HexRunStops(hex1, c, tail);
  }

  /** Any other scheme or host text than `https://www`, `dumpert` and `nl/mediabase/` is rejected. */
  lemma IdFromUrlRejectsOtherPrefix(url: string)
    requires |url| >= PrefixLength
    requires url[..11] != Scheme || url[12..19] != Host || url[20..33] != MediabasePath
    ensures IdFromUrl(url) == None
  {
  }

  /** A wildcard character outside the Basic Multilingual Plane makes the whole link fail. */
  lemma IdFromUrlRejectsAstralWildcard(c1: char, c2: char, rest: string)
    requires (c1 as int) >= 0x1_0000 || (c2 as int) >= 0x1_0000
    ensures IdFromUrl(LinkPrefix(c1, c2) + rest) == None
  {
    var url := LinkPrefix(c1, c2) + rest;
    assert url[11] == c1 && url[19] == c2;
  }

  lemma IdFromUrlRejectsEmoji()
    ensures IdFromUrl("https://www" + "\U{1F600}" + "dumpert.nl/mediabase/ab/cd/") == None
  {
    IdFromUrlRejectsAstralWildcard('\U{1F600}', '.', "ab/cd/");
    assert "https://www" + "\U{1F600}" + "dumpert.nl/mediabase/ab/cd/" == LinkPrefix('\U{1F600}', '.') + "ab/cd/";
  }
}
