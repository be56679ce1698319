/**
  The metadata mapper: the part of `fetchData` (index.js:64-93) that copies the
  first item of a dumpert.nl API response onto the output columns of a row.
 */
module MetadataMapper {
  import opened Wrappers

  /** One rendition of a media track: `{version, uri}`. */
  datatype Variant = Variant(version: string, uri: string)

  /** One media track: `{duration, variants}`, the duration in whole seconds. */
  datatype Media = Media(duration: int, variants: seq<Variant>)

  /**
    One API item. `stats.views_total`, `stats.kudos_total` and `stills.still`
    are flattened into the item.
   */
  datatype Item = Item(
    title: string,
    date: string,
    viewsTotal: int,
    kudosTotal: int,
    nsfw: bool,
    media: seq<Media>,
    still: string)

  /** The output columns of a spreadsheet row. */
  datatype Fields = Fields(
    titel: string,
    uploaddatum: string,
    views: int,
    kudos: int,
    nsfw: string,
    lengte: string,
    thumbnail: string,
    mediaUrl: string)

  // ---------------------------------------------------------------------------
  // The nsfw column

  function NsfwToken(flag: bool): string {
    if flag then "Ja" else "Nee"
  }

  /** Reads the nsfw column back; anything but the two tokens is not a flag. */
  function ParseNsfw(token: string): Option<bool> {
    if token == "Ja" then Some(true)
    else if token == "Nee" then Some(false)
    else None
  }

  lemma NsfwRoundTrip(flag: bool)
    ensures ParseNsfw(NsfwToken(flag)) == Some(flag)
  {
  }

  // ---------------------------------------------------------------------------
  // The lengte column: the duration added to midnight, shown as HH:mm:ss

  const SecondsPerDay: nat := 86400

  predicate IsDigit(c: char) {
    '0' <= c <= '9'
  }

  function DigitChar(d: nat): (c: char)
    requires d < 10
    ensures IsDigit(c)
  {
    ('0' as int + d) as char
  }

  function DigitValue(c: char): nat
    requires IsDigit(c)
  {
    c as int - '0' as int
  }

  /** Two decimal digits, zero padded. */
  function Pad2(n: nat): (s: string)
    requires n < 100
    ensures |s| == 2 && IsDigit(s[0]) && IsDigit(s[1])
  {
    [DigitChar(n / 10), DigitChar(n % 10)]
  }

  function Parse2(s: string): nat
    requires |s| == 2 && IsDigit(s[0]) && IsDigit(s[1])
  {
    10 * DigitValue(s[0]) + DigitValue(s[1])
  }

  lemma Pad2RoundTrip(n: nat)
    requires n < 100
    ensures Parse2(Pad2(n)) == n
  {
  }

  /**
    The time of day reached by adding `seconds` to midnight, as `HH:mm:ss`.
    A day has 86400 seconds here, so a duration of a day or more wraps, and a
    negative one counts back from midnight.
   */
  function FormatClock(seconds: int): (r: string)
    ensures |r| == 8 && r[2] == ':' && r[5] == ':'
    ensures forall i :: 0 <= i < 8 && i != 2 && i != 5 ==> IsDigit(r[i])
  {
    var t := seconds % SecondsPerDay;
    Pad2(t / 3600) + ":" + Pad2(t % 3600 / 60) + ":" + Pad2(t % 60)
  }

  /** Reads an `HH:mm:ss` value back to seconds after midnight. */
  function ParseClock(s: string): Option<nat> {
    if |s| == 8 && s[2] == ':' && s[5] == ':' &&
       IsDigit(s[0]) && IsDigit(s[1]) && IsDigit(s[3]) && IsDigit(s[4]) && IsDigit(s[6]) && IsDigit(s[7])
    then
      var h, m, sec := Parse2(s[0..2]), Parse2(s[3..5]), Parse2(s[6..8]);
      if h < 24 && m < 60 && sec < 60 then Some(3600 * h + 60 * m + sec) else None
    else None
  }

  /** The rendered duration reads back as the duration modulo one day. */
  lemma ClockRoundTrip(seconds: int)
    ensures ParseClock(FormatClock(seconds)) == Some(seconds % SecondsPerDay)
  {
    var t := seconds % SecondsPerDay;
    var h, m, s := t / 3600, t % 3600 / 60, t % 60;
    assert t == 3600 * h + 60 * m + s;
    var r := FormatClock(seconds);
    assert r == Pad2(h) + ":" + Pad2(m) + ":" + Pad2(s);
    assert r[0..2] == Pad2(h) && r[3..5] == Pad2(m) && r[6..8] == Pad2(s);
    Pad2RoundTrip(h);
    Pad2RoundTrip(m);
    Pad2RoundTrip(s);
  }

  /** Durations a whole day apart render alike. */
  lemma ClockWrapsDaily(seconds: int)
    ensures FormatClock(seconds + SecondsPerDay) == FormatClock(seconds)
  {
    assert (seconds + SecondsPerDay) % SecondsPerDay == seconds % SecondsPerDay;
  }

  /** 3725 seconds is "01:02:05"; five seconds before midnight is "23:59:55". */
  lemma ClockExamples()
    ensures FormatClock(3725) == "01:02:05"
    ensures FormatClock(-5) == "23:59:55"
  {
    assert 3725 % SecondsPerDay == 3725 && 3725 / 3600 == 1 && 3725 % 3600 / 60 == 2 && 3725 % 60 == 5;
    assert Pad2(1) == "01" && Pad2(2) == "02" && Pad2(5) == "05";
    assert -5 % SecondsPerDay == 86395 && 86395 / 3600 == 23 && 86395 % 3600 / 60 == 59 && 86395 % 60 == 55;
    assert Pad2(23) == "23" && Pad2(59) == "59" && Pad2(55) == "55";
  }

  // ---------------------------------------------------------------------------
  // The media-url column

  const YoutubeTag: string := "youtube:"
  const WatchPrefix: string := "https://youtube.com/watch?v="

  /** `s.substr(0, |p|) === p`. */
  predicate StartsWith(s: string, p: string) {
    |s| >= |p| && s[..|p|] == p
  }

  /** `pat` occurs in `s` at index `j`. */
  predicate OccursAt(s: string, pat: string, j: int) {
    0 <= j && j + |pat| <= |s| && s[j..j + |pat|] == pat
  }

  lemma OccursShift(s: string, pat: string)
    requires s != []
    ensures forall j :: 0 < j ==> (OccursAt(s, pat, j) <==> OccursAt(s[1..], pat, j - 1))
  {
    forall j | 0 < j ensures OccursAt(s, pat, j) <==> OccursAt(s[1..], pat, j - 1) {
      if j + |pat| <= |s| {
        assert s[j..j + |pat|] == s[1..][j - 1..j - 1 + |pat|];
      }
    }
  }

  /** `s.indexOf(pat)`: the index of the first occurrence of `pat` in `s`. */
  function IndexOf(s: string, pat: string): (r: Option<nat>)
    ensures r.Some? ==> OccursAt(s, pat, r.value) && forall j :: 0 <= j < r.value ==> !OccursAt(s, pat, j)
    ensures r.None? ==> forall j :: !OccursAt(s, pat, j)
    decreases |s|
  {
    if |s| < |pat| then None
    else if s[..|pat|] == pat then Some(0)
    else
      OccursShift(s, pat);
      match IndexOf(s[1..], pat)
      case None => None
      case Some(i) => Some(i + 1)
  }

  /** `s.replace(pat, rep)` with a string pattern: only the first occurrence is replaced. */
  function ReplaceFirst(s: string, pat: string, rep: string): string {
    match IndexOf(s, pat)
    case None => s
    case Some(i) => s[..i] + rep + s[i + |pat|..]
  }

  /** The uri of a track's only variant, with a `youtube:<id>` uri turned into a watch URL. */
  function SingleVariantUrl(uri: string): string {
    if StartsWith(uri, YoutubeTag) then WatchPrefix + ReplaceFirst(uri, YoutubeTag, "") else uri
  }

  /** A `youtube:` uri becomes the watch URL of the id after the tag; any other uri is kept. */
  lemma SingleVariantUrlRewrite(uri: string)
    ensures StartsWith(uri, YoutubeTag) ==> SingleVariantUrl(uri) == WatchPrefix + uri[|YoutubeTag|..]
    ensures !StartsWith(uri, YoutubeTag) ==> SingleVariantUrl(uri) == uri
  {
    if StartsWith(uri, YoutubeTag) {
      assert IndexOf(uri, YoutubeTag) == Some(0);
    }
  }

  lemma SingleVariantUrlExample()
    ensures SingleVariantUrl(YoutubeTag + "abc123") == WatchPrefix + "abc123"
  {
    SingleVariantUrlRewrite(YoutubeTag + "abc123");
    assert (YoutubeTag + "abc123")[|YoutubeTag|..] == "abc123";
  }

  /** `Array.prototype.find` on the variants: the first one whose version is the wanted label. */
  function FindVersion(variants: seq<Variant>, wanted: string): (r: Option<Variant>)
    ensures r.Some? ==> exists i :: 0 <= i < |variants| && variants[i] == r.value && r.value.version == wanted &&
                          forall j :: 0 <= j < i ==> variants[j].version != wanted
    ensures r.None? ==> forall j :: 0 <= j < |variants| ==> variants[j].version != wanted
  {
    if variants == [] then None
    else if variants[0].version == wanted then Some(variants[0])
    else
      var r := FindVersion(variants[1..], wanted);
      if r.Some? then
        var i :| 0 <= i < |variants[1..]| && variants[1..][i] == r.value && r.value.version == wanted &&
                 forall j :: 0 <= j < i ==> variants[1..][j].version != wanted;
        assert variants[i + 1] == r.value;
        r
      else r
  }

  /** The preference of a variant label: 720p, then tablet, then mobile; any other label is not wanted. */
  function Rank(version: string): nat {
    if version == "720p" then 0
    else if version == "tablet" then 1
    else if version == "mobile" then 2
    else 3
  }

  /** Variant `i` has a wanted label, no variant has a better one, and no earlier variant has the same. */
  ghost predicate IsBestVariant(variants: seq<Variant>, i: int) {
    && 0 <= i < |variants|
    && Rank(variants[i].version) < 3
    && (forall j :: 0 <= j < |variants| ==> Rank(variants[i].version) <= Rank(variants[j].version))
    && (forall j :: 0 <= j < i ==> Rank(variants[i].version) < Rank(variants[j].version))
  }

  /**
    The media-url column for a track: its only variant (see SingleVariantUrl),
    otherwise the first 720p, else the first tablet, else the first mobile
    variant; with none of those labels the column keeps `current`.
   */
  function SelectMediaUrl(variants: seq<Variant>, current: string): (r: string)
    ensures |variants| == 1 ==> r == SingleVariantUrl(variants[0].uri)
    ensures |variants| != 1 && (exists j :: 0 <= j < |variants| && Rank(variants[j].version) < 3) ==>
              exists i :: IsBestVariant(variants, i) && r == variants[i].uri
    ensures |variants| != 1 && (forall j :: 0 <= j < |variants| ==> Rank(variants[j].version) == 3) ==>
              r == current
  {
    if |variants| == 1 then SingleVariantUrl(variants[0].uri)
    else
      var chosen :=
        match FindVersion(variants, "720p")
        case Some(v) => Some(v)
        case None =>
          match FindVersion(variants, "tablet")
          case Some(v) => Some(v)
          case None => FindVersion(variants, "mobile");
      match chosen
      case Some(v) => v.uri
      case None => current
  }

  /** Among several variants, the first 720p one is taken, wherever it stands. */
  lemma SelectMediaUrlPrefers720p(variants: seq<Variant>, k: nat, current: string)
    requires |variants| != 1 && k < |variants| && variants[k].version == "720p"
    requires forall j :: 0 <= j < k ==> variants[j].version != "720p"
    ensures SelectMediaUrl(variants, current) == variants[k].uri
  {
    assert IsBestVariant(variants, k);
    var i :| IsBestVariant(variants, i) && SelectMediaUrl(variants, current) == variants[i].uri;
    BestVariantUnique(variants, i, k);
  }

  /** With no 720p variant, the first tablet one is taken, before or after any mobile one. */
  lemma SelectMediaUrlPrefersTablet(variants: seq<Variant>, k: nat, current: string)
    requires |variants| != 1 && k < |variants| && variants[k].version == "tablet"
    requires forall j :: 0 <= j < |variants| ==> variants[j].version != "720p"
    requires forall j :: 0 <= j < k ==> variants[j].version != "tablet"
    ensures SelectMediaUrl(variants, current) == variants[k].uri
  {
    assert IsBestVariant(variants, k);
    var i :| IsBestVariant(variants, i) && SelectMediaUrl(variants, current) == variants[i].uri;
    BestVariantUnique(variants, i, k);
  }

  /** With no 720p and no tablet variant, the first mobile one is taken. */
  lemma SelectMediaUrlFallsBackToMobile(variants: seq<Variant>, k: nat, current: string)
    requires |variants| != 1 && k < |variants| && variants[k].version == "mobile"
    requires forall j :: 0 <= j < |variants| ==> variants[j].version != "720p" && variants[j].version != "tablet"
    requires forall j :: 0 <= j < k ==> variants[j].version != "mobile"
    ensures SelectMediaUrl(variants, current) == variants[k].uri
  {
    assert IsBestVariant(variants, k);
    var i :| IsBestVariant(variants, i) && SelectMediaUrl(variants, current) == variants[i].uri;
    BestVariantUnique(variants, i, k);
  }

  // ---------------------------------------------------------------------------
  // The whole mapping

  /** index.js:64-68: the columns written before the first media track is read. */
  function MapHeader(item: Item, renderDate: string -> string, prev: Fields): Fields {
    prev.(titel := item.title, uploaddatum := renderDate(item.date), views := item.viewsTotal,
          kudos := item.kudosTotal, nsfw := NsfwToken(item.nsfw))
  }

  /** index.js:64-93: every column written from an item whose first media track exists. */
  function MapItem(item: Item, renderDate: string -> string, prev: Fields): Fields
    requires item.media != []
  {
    MapHeader(item, renderDate, prev).(
      lengte := FormatClock(item.media[0].duration),
      thumbnail := item.still,
      mediaUrl := SelectMediaUrl(item.media[0].variants, prev.mediaUrl))
  }

  /** What a mapped row says about the item, read back through the column formats. */
  lemma MapItemReadsBack(item: Item, renderDate: string -> string, prev: Fields)
    requires item.media != []
    ensures var f := MapItem(item, renderDate, prev);
      && f.titel == item.title && f.views == item.viewsTotal && f.kudos == item.kudosTotal
      && f.thumbnail == item.still
      && ParseNsfw(f.nsfw) == Some(item.nsfw)
      && ParseClock(f.lengte) == Some(item.media[0].duration % SecondsPerDay)
  {
    NsfwRoundTrip(item.nsfw);
    ClockRoundTrip(item.media[0].duration);
  }

  /** Mapping the same item a second time changes nothing. */
  lemma MapItemIdempotent(item: Item, renderDate: string -> string, prev: Fields)
    requires item.media != []
    ensures MapItem(item, renderDate, MapItem(item, renderDate, prev)) == MapItem(item, renderDate, prev)
  {
  }

  /** The best variant, when there is one, is a single index. */
  lemma BestVariantUnique(variants: seq<Variant>, i1: int, i2: int)
    requires IsBestVariant(variants, i1) && IsBestVariant(variants, i2)
    ensures i1 == i2
  {
  }

  /** With one variant or a wanted label present, the media-url does not depend on its previous value. */
  lemma SelectMediaUrlIgnoresCurrent(variants: seq<Variant>, c1: string, c2: string)
    requires |variants| == 1 || exists j :: 0 <= j < |variants| && Rank(variants[j].version) < 3
    ensures SelectMediaUrl(variants, c1) == SelectMediaUrl(variants, c2)
  {
    if |variants| != 1 {
      var u1, u2 := SelectMediaUrl(variants, c1), SelectMediaUrl(variants, c2);
      var i1 :| IsBestVariant(variants, i1) && u1 == variants[i1].uri;
      var i2 :| IsBestVariant(variants, i2) && u2 == variants[i2].uri;
      BestVariantUnique(variants, i1, i2);
    }
  }

  /** Two rows mapped from the same item agree unless no variant replaced the media-url. */
  lemma MapItemIgnoresPrevious(item: Item, renderDate: string -> string, p1: Fields, p2: Fields)
    requires item.media != []
    requires |item.media[0].variants| == 1 ||
             exists j :: 0 <= j < |item.media[0].variants| && Rank(item.media[0].variants[j].version) < 3
    ensures MapItem(item, renderDate, p1) == MapItem(item, renderDate, p2)
  {
    SelectMediaUrlIgnoresCurrent(item.media[0].variants, p1.mediaUrl, p2.mediaUrl);
  }
}
