/**
 * Stream-link repair (`update_links.py`): M3U playlists from several countries are
 * parsed into name -> URL lists and merged; then every channel of a category file
 * loses its dead stream URLs and, when it lost any, gains at most one live
 * replacement taken from the playlists under its exact name.
 *
 * The HTTP download is the oracle `fetch` (None when the request fails or the status
 * is an error) and the `ffprobe` run is the oracle `ffprobe` (None when it times out or
 * the tool is missing, otherwise its exit code and standard output).
 */
module Links {
  import opened Wrappers
  import opened Text
  import opened Seqs

  const BaseUrl: string := "https://raw.githubusercontent.com/iptv-org/iptv/master/streams/"
  const SourceFiles: seq<string> := ["bd.m3u", "in.m3u", "uk.m3u", "us.m3u", "ca.m3u", "au.m3u"]
  /** The tag that opens an M3U media segment header (section 4.3.2.1 of RFC 8216). */
  const HeaderTag: string := "#EXTINF:"

  type Links = map<string, seq<string>>

  /** `d.get(k, [])`. */
  function Get(m: Links, k: string): (urls: seq<string>) {
    if k in m then m[k] else []
  }

  // ---------------------------------------------------------------------------
  // Parsing one playlist
  // ---------------------------------------------------------------------------

  /** The channel name of a header line: after its last comma, cut at the first "(", stripped. */
  function CleanName(header: string): (name: string) {
    var parts := Split(header, ",");
    var namePart := Strip(parts[|parts| - 1]);
    Strip(Split(namePart, "(")[0])
  }

  lemma SplitPieceLacks(s: string, c: char, k: nat)
    requires k < |Split(s, [c])|
    ensures c !in Split(s, [c])[k]
  {
    SplitPiecesAvoidSep(s, [c]);
    ContainsChar(Split(s, [c])[k], c);
  }

  lemma StripLacks(s: string, c: char)
    requires c !in s
    ensures c !in Strip(s)
  {
    StripKeepsChars(s);
  }

  /**
   * `header[c..d]` runs from just after the last comma of the header (or its start) up
   * to the first "(" after that comma (or its end).
   */
  predicate NameSpan(header: string, c: int, d: int) {
    && 0 <= c <= d <= |header|
    && (c == 0 || header[c - 1] == ',') && ',' !in header[c..]
    && (d == |header| || header[d] == '(') && '(' !in header[c..d]
  }

  /** A "(" found after leading white space: the text before it, stripped, is the piece before it, stripped. */
  lemma CutAfterSpaces(part: string, i: nat, piece: string)
    requires i + |piece| < |part| && part[i + |piece|] == '('
    requires forall k :: 0 <= k < i ==> IsSpace(part[k])
    requires part[i..i + |piece|] == piece && '(' !in piece
    ensures '(' !in part[..i + |piece|]
    ensures Strip(piece) == Strip(part[..i + |piece|])
  {
    var d := i + |piece|;
    assert part[..d] == part[..i] + piece;
    StripSkipsSpaces(part[..i], piece);
    forall k | 0 <= k < d ensures part[k] != '(' {
      if k >= i {
        assert part[k] == piece[k - i];
      } else {
        assert IsSpace(part[k]);
      }
    }
  }

  /** A text whose only "(" could lie in its stripped middle, and there is none, has no "(" at all. */
  lemma NoParenAround(part: string, i: nat, j: nat)
    requires i <= j <= |part|
    requires forall k :: 0 <= k < i ==> IsSpace(part[k])
    requires forall k :: j <= k < |part| ==> IsSpace(part[k])
    requires '(' !in part[i..j]
    ensures '(' !in part
  {
    forall k | 0 <= k < |part| ensures part[k] != '(' {
      if i <= k < j {
        assert part[k] == part[i..j][k - i];
      } else {
        assert IsSpace(part[k]);
      }
    }
  }

  /**
   * The cut inside a trimmed slice `part[i..j]`: the piece before its first "(" (or all of
   * it) is, once stripped, the whole text before that "(" (or the whole text), stripped.
   */
  lemma CutOfSlice(part: string, i: nat, j: nat, piece: string) returns (d: nat)
    requires i <= j <= |part|
    requires forall k :: 0 <= k < i ==> IsSpace(part[k])
    requires forall k :: j <= k < |part| ==> IsSpace(part[k])
    requires i + |piece| <= j && part[i..i + |piece|] == piece && '(' !in piece
    requires i + |piece| == j || part[i + |piece|] == '('
    requires i == j || (!IsSpace(part[i]) && !IsSpace(part[j - 1]))
    requires Strip(part) == part[i..j]
    ensures d <= |part| && (d == |part| || part[d] == '(') && '(' !in part[..d]
    ensures Strip(piece) == Strip(part[..d])
  {
    if i + |piece| < j {
      d := i + |piece|;
      CutAfterSpaces(part, i, piece);
    } else {
      d := |part|;
      NoParenAround(part, i, j);
      assert part[..d] == part;
      assert piece == part[i..j];
      StripTrimmed(piece);
    }
  }

  /** Stripping, cutting at the first "(" and stripping again is stripping the text before that "(". */
  lemma CutOfStripped(part: string) returns (d: nat)
    ensures d <= |part| && (d == |part| || part[d] == '(') && '(' !in part[..d]
    ensures Strip(Split(Strip(part), "(")[0]) == Strip(part[..d])
  {
    var i, j := StripBounds(part);
    var piece := Split(Strip(part), "(")[0];
    SplitFirstPiece(Strip(part), '(');
    assert "(" == ['('];
    assert part[i..i + |piece|] == piece;
    d := CutOfSlice(part, i, j, piece);
  }

  /** The span from past the last comma to the cut in the text after it is a `NameSpan`. */
  lemma NameSpanAfterComma(header: string, last: string, d: nat)
    requires |last| <= |header| && last == header[|header| - |last|..] && ',' !in last
    requires |last| == |header| || header[|header| - |last| - 1] == ','
    requires d <= |last| && (d == |last| || last[d] == '(') && '(' !in last[..d]
    ensures NameSpan(header, |header| - |last|, |header| - |last| + d)
    ensures header[|header| - |last|..|header| - |last| + d] == last[..d]
  {
  }

  /** The last piece of a header split on "," is the text after its last comma. */
  lemma LastPieceAfterComma(header: string, last: string)
    requires last == Split(header, ",")[|Split(header, ",")| - 1]
    ensures |last| <= |header| && last == header[|header| - |last|..] && ',' !in last
    ensures |last| == |header| || header[|header| - |last| - 1] == ','
  {
    assert "," == [','];
    SplitLastPiece(header, ',');
  }

  /** The bounds of the header text that the cleaned name strips. */
  lemma CleanNameSpan(header: string) returns (c: nat, d: nat)
    ensures NameSpan(header, c, d) && CleanName(header) == Strip(header[c..d])
  {
    var parts := Split(header, ",");
    var last := parts[|parts| - 1];
    LastPieceAfterComma(header, last);
    var cut := CutOfStripped(last);
    NameSpanAfterComma(header, last, cut);
    c := |header| - |last|;
    d := c + cut;
    assert CleanName(header) == Strip(Split(Strip(last), "(")[0]);
  }

  /**
   * The cleaned name is the header's text after its last comma, cut before the first
   * "(" that follows, and stripped.
   */
  lemma CleanNameIs(header: string)
    ensures exists c, d :: NameSpan(header, c, d) && CleanName(header) == Strip(header[c..d])
  {
    var c, d := CleanNameSpan(header);
  }

  /** A cleaned name holds no comma and no "(", and has no white space at either end. */
  lemma CleanNameShape(header: string)
    ensures ',' !in CleanName(header) && '(' !in CleanName(header)
    ensures CleanName(header) == [] || (!IsSpace(CleanName(header)[0]) && !IsSpace(CleanName(header)[|CleanName(header)| - 1]))
    ensures exists c, d :: NameSpan(header, c, d) && CleanName(header) == Strip(header[c..d])
  {
    CleanNameIs(header);
    var c, d :| NameSpan(header, c, d) && CleanName(header) == Strip(header[c..d]);
    var span := header[c..d];
    assert span == header[c..][..d - c];
    StripLacks(span, ',');
    StripLacks(span, '(');
    StripIsTrimmedSlice(span);
  }


  /**
   * The entry a header line and the line after it make: the header must carry the tag,
   * and both the cleaned name and the stripped URL must be non-empty.
   */
  function PairEntry(header: string, urlLine: string): (entry: Option<(string, string)>) {
    var name := CleanName(header);
    var url := Strip(urlLine);
    if StartsWith(header, HeaderTag) && name != "" && url != "" then Some((name, url)) else None
  }

  /**
   * The slots of a playlist: slot `j` pairs header line `2 * j` with URL line
   * `2 * j + 1`, for every even line index before the last line.
   */
  function Slots(lines: seq<string>): (slots: seq<Option<(string, string)>>) {
    seq(|lines| / 2, j requires 0 <= j < |lines| / 2 => PairEntry(lines[2 * j], lines[2 * j + 1]))
  }

  lemma SlotAt(lines: seq<string>, j: nat)
    requires j < |lines| / 2
    ensures Slots(lines)[j] == PairEntry(lines[2 * j], lines[2 * j + 1])
  {
  }

  /**
   * The slots follow `range(0, len(lines) - 1, 2)`: every even index `i` before the
   * last line starts a slot pairing line `i` with line `i + 1`, and no other line does.
   */
  lemma SlotsFollowRange(lines: seq<string>)
    ensures forall j :: 0 <= j < |Slots(lines)| ==> 2 * j < |lines| - 1
    ensures forall i :: 0 <= i < |lines| - 1 && i % 2 == 0 ==>
              i / 2 < |Slots(lines)| && Slots(lines)[i / 2] == PairEntry(lines[i], lines[i + 1])
  {
    forall i | 0 <= i < |lines| - 1 && i % 2 == 0
      ensures i / 2 < |Slots(lines)| && Slots(lines)[i / 2] == PairEntry(lines[i], lines[i + 1])
    {
      var j := i / 2;
      assert 2 * j == i;
      SlotAt(lines, j);
    }
  }

  /** `d.setdefault(name, []).extend(urls)`: extends the list kept under `name`, creating it when absent. */
  function AddLinks(m: Links, name: string, urls: seq<string>): (extended: Links) {
    m[name := Get(m, name) + urls]
  }

  /** The name -> URLs dictionary built from a list of entries. */
  function Grouped(entries: seq<(string, string)>): (links: Links) {
    if entries == [] then map[]
    else
      var e := entries[|entries| - 1];
      AddLinks(Grouped(entries[..|entries| - 1]), e.0, [e.1])
  }

  /** The URLs of the entries named `name`, in order. */
  function UrlsNamed(entries: seq<(string, string)>, name: string): (urls: seq<string>) {
    if entries == [] then []
    else
      var e := entries[|entries| - 1];
      UrlsNamed(entries[..|entries| - 1], name) + (if e.0 == name then [e.1] else [])
  }

  /** A name is present exactly when some entry carries it, and its list holds that name's URLs in file order, duplicates included. */
  lemma {:induction false} GroupedIsByName(entries: seq<(string, string)>)
    ensures forall name :: name in Grouped(entries) <==> exists k :: 0 <= k < |entries| && entries[k].0 == name
    ensures forall name :: Get(Grouped(entries), name) == UrlsNamed(entries, name)
  {
    if entries != [] {
      var p := entries[..|entries| - 1];
      var e := entries[|entries| - 1];
      GroupedIsByName(p);
      assert Grouped(entries) == AddLinks(Grouped(p), e.0, [e.1]);
      assert UrlsNamed(entries, e.0) == UrlsNamed(p, e.0) + [e.1];
      forall name ensures name in Grouped(entries) <==> exists k :: 0 <= k < |entries| && entries[k].0 == name {
        if name in Grouped(entries) && name != e.0 {
          var k :| 0 <= k < |p| && p[k].0 == name;
          assert entries[k] == p[k];
        }
        if exists k :: 0 <= k < |entries| && entries[k].0 == name {
          var k :| 0 <= k < |entries| && entries[k].0 == name;
          if k < |p| {
            assert p[k] == entries[k];
          }
        }
      }
    }
  }

  /** The dictionary a playlist text yields. */
  function Playlist(text: string): (links: Links) {
    Grouped(Somes(Slots(Split(text, "\n"))))
  }

  /** One slot of the parsing loop: the dictionary grows by the slot's entry, if it has one. */
  lemma ParseStep(slots: seq<Option<(string, string)>>, j: nat)
    requires j < |slots|
    ensures slots[j].None? ==> Grouped(Somes(slots[..j + 1])) == Grouped(Somes(slots[..j]))
    ensures slots[j].Some? ==>
              Grouped(Somes(slots[..j + 1])) == AddLinks(Grouped(Somes(slots[..j])), slots[j].value.0, [slots[j].value.1])
  {
    assert slots[..j + 1] == slots[..j] + [slots[j]];
    SomesSnoc(slots[..j], slots[j]);
    match slots[j]
    case None =>
      assert Somes(slots[..j]) + [] == Somes(slots[..j]);
    case Some(e) =>
      GroupedSnoc(Somes(slots[..j]), e);
  }

  /** Creating the list when absent and then extending it is `AddLinks`. */
  lemma ExtendIsAddLinks(m: Links, name: string, urls: seq<string>)
    ensures var created := if name in m then m else m[name := []];
            created[name := created[name] + urls] == AddLinks(m, name, urls)
  {
  }

  lemma GroupedSnoc(entries: seq<(string, string)>, e: (string, string))
    ensures Grouped(entries + [e]) == AddLinks(Grouped(entries), e.0, [e.1])
  {
    assert (entries + [e])[..|entries|] == entries;
  }

  /** The pair-parsing loop of `fetch_url`. */
  method ParseSource(text: string) returns (sourceChannels: Links)
    ensures sourceChannels == Playlist(text)
  {
    var lines := Split(text, "\n");
    sourceChannels := ParseLines(lines);
  }

  method ParseLines(lines: seq<string>) returns (sourceChannels: Links)
    ensures sourceChannels == Grouped(Somes(Slots(lines)))
  {
    ghost var slots := Slots(lines);
    sourceChannels := map[];
    for j := 0 to |lines| / 2
      invariant sourceChannels == Grouped(Somes(slots[..j]))
    {
      var i := 2 * j;
      ParseStep(slots, j);
      SlotAt(lines, j);
      var entry := PairEntry(lines[i], lines[i + 1]);
      if entry.Some? {
        var (cleanName, channelUrl) := entry.value;
        ExtendIsAddLinks(sourceChannels, cleanName, [channelUrl]);
        if cleanName !in sourceChannels {
          sourceChannels := sourceChannels[cleanName := []];
        }
        sourceChannels := sourceChannels[cleanName := sourceChannels[cleanName] + [channelUrl]];
      }
    }
    assert slots[..|lines| / 2] == slots;
  }

  // ---------------------------------------------------------------------------
  // Playlists whose entries start on odd lines
  // ---------------------------------------------------------------------------

  /** A sequence of options with no value in it has no values to collect. */
  lemma {:induction false} NoSomes<T>(xs: seq<Option<T>>)
    requires forall j :: 0 <= j < |xs| ==> xs[j].None?
    ensures Somes(xs) == []
  {
    if xs != [] {
      NoSomes(xs[..|xs| - 1]);
    }
  }

  /**
   * As written, the loop reads header lines at even indices only. When no even line
   * carries the tag, as in a playlist that opens with "#EXTM3U" and then alternates
   * header and URL lines, nothing is parsed.
   */
  lemma OddHeadersAreSkipped(lines: seq<string>)
    requires forall i :: 0 <= i < |lines| && i % 2 == 0 ==> !StartsWith(lines[i], HeaderTag)
    ensures Grouped(Somes(Slots(lines))) == map[]
  {
    forall j | 0 <= j < |Slots(lines)| ensures Slots(lines)[j].None? {
      SlotAt(lines, j);
      assert (2 * j) % 2 == 0;
    }
    NoSomes(Slots(lines));
  }

  /** Each line with the line after it, at every index. */
  function AllSlots(lines: seq<string>): (slots: seq<Option<(string, string)>>)
    ensures |slots| == if lines == [] then 0 else |lines| - 1
  {
    if lines == [] then []
    else seq(|lines| - 1, i requires 0 <= i < |lines| - 1 => PairEntry(lines[i], lines[i + 1]))
  }

  /** The parse the loop evidently intends: every header line, wherever it sits, with the line after it. */
  function IntendedPlaylist(lines: seq<string>): (links: Links) {
    Grouped(Somes(AllSlots(lines)))
  }

  lemma {:induction false} UrlsNamedHas(entries: seq<(string, string)>, k: nat)
    requires k < |entries|
    ensures entries[k].1 in UrlsNamed(entries, entries[k].0)
    decreases |entries|
  {
    if k < |entries| - 1 {
      UrlsNamedHas(entries[..|entries| - 1], k);
      assert entries[..|entries| - 1][k] == entries[k];
    }
  }

  /** The intended parse keeps every header line that has a URL after it, at odd and even indices alike. */
  lemma IntendedPlaylistFindsEveryEntry(lines: seq<string>)
    ensures forall i :: 0 <= i < |lines| - 1 && PairEntry(lines[i], lines[i + 1]).Some? ==>
              var (name, url) := PairEntry(lines[i], lines[i + 1]).value;
              name in IntendedPlaylist(lines) && url in IntendedPlaylist(lines)[name]
  {
    var slots := AllSlots(lines);
    var entries := Somes(slots);
    SomesMembers(slots);
    GroupedIsByName(entries);
    forall i | 0 <= i < |lines| - 1 && PairEntry(lines[i], lines[i + 1]).Some?
      ensures var (name, url) := PairEntry(lines[i], lines[i + 1]).value;
              name in IntendedPlaylist(lines) && url in IntendedPlaylist(lines)[name]
    {
      var e := PairEntry(lines[i], lines[i + 1]).value;
      assert slots[i] == Some(e);
      assert e in entries;
      var k :| 0 <= k < |entries| && entries[k] == e;
      UrlsNamedHas(entries, k);
    }
  }

  /** The name cleaned out of the sample header line "#EXTINF:-1,A". */
  lemma SampleHeaderName()
    ensures CleanName("#EXTINF:-1,A") == "A"
  {
    var h := "#EXTINF:-1,A";
    CleanNameIs(h);
    var c, d :| NameSpan(h, c, d) && CleanName(h) == Strip(h[c..d]);
    assert h[10] == ',';
    assert c == 11;
    assert d == 12;
    assert h[c..d] == "A";
    StripTrimmed("A");
  }

  /** A playlist that opens with "#EXTM3U": the code as written finds no channel in it. */
  lemma ExtM3uPlaylistIsLost()
    ensures Grouped(Somes(Slots(["#EXTM3U", "#EXTINF:-1,A", "http://a"]))) == map[]
  {
    var lines := ["#EXTM3U", "#EXTINF:-1,A", "http://a"];
    assert lines[2][..|HeaderTag|][0] != HeaderTag[0];
    assert !StartsWith(lines[0], HeaderTag) && !StartsWith(lines[2], HeaderTag);
    OddHeadersAreSkipped(lines);
  }

  /** The sample playlist's first line is not a header, so it starts no entry. */
  lemma SampleFirstPair()
    ensures PairEntry("#EXTM3U", "#EXTINF:-1,A") == None
  {
    assert !StartsWith("#EXTM3U", HeaderTag);
  }

  /** The sample playlist's header line, followed by its URL, makes the entry ("A", "http://a"). */
  lemma SampleSecondPair()
    ensures PairEntry("#EXTINF:-1,A", "http://a") == Some(("A", "http://a"))
  {
    SampleHeaderName();
    StripTrimmed("http://a");
    assert StartsWith("#EXTINF:-1,A", HeaderTag);
  }

  /** A three-line playlist has two slots under the intended parse: lines 0 and 1, then lines 1 and 2. */
  lemma ThreeLineSlots(l0: string, l1: string, l2: string)
    ensures AllSlots([l0, l1, l2]) == [PairEntry(l0, l1), PairEntry(l1, l2)]
  {
  }

  /** The slots the intended parse sees in the sample playlist. */
  lemma SampleSlots()
    ensures AllSlots(["#EXTM3U", "#EXTINF:-1,A", "http://a"]) == [None, Some(("A", "http://a"))]
  {
    ThreeLineSlots("#EXTM3U", "#EXTINF:-1,A", "http://a");
    SampleFirstPair();
    SampleSecondPair();
  }


  /** The entries collected from the sample's slots. */
  lemma SampleEntries()
    ensures Somes<(string, string)>([None, Some(("A", "http://a"))]) == [("A", "http://a")]
  {
    var e := ("A", "http://a");
    var first: seq<Option<(string, string)>> := [None];
    assert [None, Some(e)] == first + [Some(e)];
    SomesSnoc(first, Some(e));
    assert first[..0] == [];
  }

  /** The dictionary built from the sample's one entry. */
  lemma SampleGrouped()
    ensures Grouped([("A", "http://a")]) == map["A" := ["http://a"]]
  {
    var one: seq<(string, string)> := [("A", "http://a")];
    assert one[..0] == [];
    assert Grouped(one[..0]) == map[];
    assert Get(map[], "A") == [];
    assert [] + ["http://a"] == ["http://a"];
  }

  /** The same playlist under the intended parse: channel "A" with its one URL. */
  lemma ExtM3uPlaylistIntended()
    ensures IntendedPlaylist(["#EXTM3U", "#EXTINF:-1,A", "http://a"]) == map["A" := ["http://a"]]
  {
    SampleSlots();
    SampleEntries();
    SampleGrouped();
  }

  /** The dictionary `fetch_url` returns for one source file; a failed download gives an empty one. */
  function SourceLinks(fileName: string, fetch: string -> Option<string>): (links: Links) {
    match fetch(BaseUrl + fileName)
    case None => map[]
    case Some(text) => Playlist(text)
  }

  method FetchUrl(fileName: string, fetch: string -> Option<string>) returns (sourceChannels: Links)
    ensures sourceChannels == SourceLinks(fileName, fetch)
  {
    var response := fetch(BaseUrl + fileName);
    match response {
      case None => sourceChannels := map[];
      case Some(text) => sourceChannels := ParseSource(text);
    }
  }

  // ---------------------------------------------------------------------------
  // Merging the sources
  // ---------------------------------------------------------------------------

  /** `acc` after the keys in `done` of `r` were extended into it. */
  function MergeInto(acc: Links, r: Links, done: set<string>): (merged: Links)
    requires done <= r.Keys
  {
    map k | k in acc.Keys + done :: Get(acc, k) + (if k in done then r[k] else [])
  }

  /** The dictionary after merging each source dictionary of `rs`, in order. */
  function Merged(rs: seq<Links>): (merged: Links) {
    if rs == [] then map[]
    else
      var r := rs[|rs| - 1];
      MergeInto(Merged(rs[..|rs| - 1]), r, r.Keys)
  }

  /** The lists kept under `name` in `rs`, concatenated in order. */
  function ConcatFor(rs: seq<Links>, name: string): (urls: seq<string>) {
    if rs == [] then [] else ConcatFor(rs[..|rs| - 1], name) + Get(rs[|rs| - 1], name)
  }

  /**
   * The merged dictionary has a name exactly when some source has it, and its list is
   * the concatenation of the sources' lists in source order, duplicates kept.
   */
  lemma {:induction false} MergedIsConcat(rs: seq<Links>)
    ensures forall name :: name in Merged(rs) <==> exists i :: 0 <= i < |rs| && name in rs[i]
    ensures forall name :: Get(Merged(rs), name) == ConcatFor(rs, name)
  {
    if rs != [] {
      var p := rs[..|rs| - 1];
      MergedIsConcat(p);
      assert forall i :: 0 <= i < |p| ==> p[i] == rs[i];
    }
  }

  lemma MergeIntoStep(acc: Links, r: Links, done: set<string>, name: string)
    requires done <= r.Keys && name in r && name !in done
    ensures AddLinks(MergeInto(acc, r, done), name, r[name]) == MergeInto(acc, r, done + {name})
  {
    var before := MergeInto(acc, r, done);
    var lhs := AddLinks(before, name, r[name]);
    var rhs := MergeInto(acc, r, done + {name});
    assert lhs.Keys == rhs.Keys;
    forall k | k in lhs ensures lhs[k] == rhs[k] {
      if k == name {
        assert Get(before, k) == Get(acc, k);
      }
    }
  }

  lemma MergeIntoNothing(acc: Links, r: Links)
    ensures MergeInto(acc, r, {}) == acc
  {
    var m := MergeInto(acc, r, {});
    assert m.Keys == acc.Keys;
    forall k | k in m ensures m[k] == acc[k] {
      assert m[k] == acc[k] + [];
    }
  }

  /** One pass of the merge loop: every name of `result` is extended into `allLinks`. */
  method MergeOne(allLinks: Links, result: Links) returns (merged: Links)
    ensures merged == MergeInto(allLinks, result, result.Keys)
  {
    merged := allLinks;
    var pending := result.Keys;
    MergeIntoNothing(allLinks, result);
    assert result.Keys - pending == {};
    while pending != {}
      invariant pending <= result.Keys
      invariant merged == MergeInto(allLinks, result, result.Keys - pending)
      decreases pending
    {
      var name :| name in pending;
      MergeIntoStep(allLinks, result, result.Keys - pending, name);
      ExtendIsAddLinks(merged, name, result[name]);
      if name !in merged {
        merged := merged[name := []];
      }
      merged := merged[name := merged[name] + result[name]];
      assert result.Keys - (pending - {name}) == (result.Keys - pending) + {name};
      pending := pending - {name};
    }
  }

  /** The merge loop of `fetch_all_source_links`. */
  method MergeSources(results: seq<Links>) returns (allLinks: Links)
    ensures allLinks == Merged(results)
  {
    allLinks := map[];
    for n := 0 to |results|
      invariant allLinks == Merged(results[..n])
    {
      allLinks := MergeOne(allLinks, results[n]);
      assert results[..n + 1][..n] == results[..n];
    }
    assert results[..|results|] == results;
  }

  /** The source dictionaries, one per source file in `SourceFiles` order. */
  function AllSources(fetch: string -> Option<string>): (sources: seq<Links>) {
    seq(|SourceFiles|, i requires 0 <= i < |SourceFiles| => SourceLinks(SourceFiles[i], fetch))
  }

  /** The downloads of `files`, one result per file, in order. */
  method FetchEach(files: seq<string>, fetch: string -> Option<string>) returns (results: seq<Links>)
    ensures |results| == |files|
    ensures forall i :: 0 <= i < |files| ==> results[i] == SourceLinks(files[i], fetch)
  {
    results := [];
    for i := 0 to |files|
      invariant |results| == i
      invariant forall k :: 0 <= k < i ==> results[k] == SourceLinks(files[k], fetch)
    {
      var r := FetchUrl(files[i], fetch);
      results := results + [r];
    }
  }

  /** `fetch_all_source_links`: the downloads are taken in source order, as the executor's ordered map returns them. */
  method FetchAllSourceLinks(fetch: string -> Option<string>) returns (allLinks: Links)
    ensures allLinks == Merged(AllSources(fetch))
  {
    var results := FetchEach(SourceFiles, fetch);
    assert results == AllSources(fetch);
    allLinks := MergeSources(results);
  }

  // ---------------------------------------------------------------------------
  // Repairing the channels of one file
  // ---------------------------------------------------------------------------

  /** `is_link_working`: the probe exits with status 0 and reports a video stream. */
  predicate IsLinkWorking(url: string, ffprobe: string -> Option<(int, string)>) {
    match ffprobe(url)
    case None => false
    case Some(result) => result.0 == 0 && Contains(result.1, "video")
  }

  /**
   * A link works exactly when the probe finishes with exit status 0 and "video" occurs
   * in its output; a probe that times out or cannot be started never passes.
   */
  lemma IsLinkWorkingMeans(url: string, ffprobe: string -> Option<(int, string)>)
    ensures ffprobe(url).None? ==> !IsLinkWorking(url, ffprobe)
    ensures IsLinkWorking(url, ffprobe) <==>
              exists out, i :: ffprobe(url) == Some((0, out)) && OccursAt(out, "video", i)
  {
    if ffprobe(url).Some? {
      ContainsIff(ffprobe(url).value.1, "video");
    }
  }

  /** `working_urls`: the URLs that pass the probe, in order. */
  function Working(urls: seq<string>, ffprobe: string -> Option<(int, string)>): (live: seq<string>)
    ensures |live| <= |urls|
  {
    if urls == [] then []
    else
      var u := urls[|urls| - 1];
      Working(urls[..|urls| - 1], ffprobe) + (if IsLinkWorking(u, ffprobe) then [u] else [])
  }

  /** A URL is kept exactly when it is in the list and passes the probe. */
  lemma {:induction false} WorkingMembers(urls: seq<string>, ffprobe: string -> Option<(int, string)>)
    ensures forall u :: u in Working(urls, ffprobe) <==> u in urls && IsLinkWorking(u, ffprobe)
  {
    if urls != [] {
      var p := urls[..|urls| - 1];
      WorkingMembers(p, ffprobe);
      assert urls == p + [urls[|urls| - 1]];
    }
  }

  /** Positions in `urls` of the URLs that pass the probe, ascending. */
  function WorkingPositions(urls: seq<string>, ffprobe: string -> Option<(int, string)>): (positions: seq<nat>) {
    if urls == [] then []
    else
      WorkingPositions(urls[..|urls| - 1], ffprobe)
      + (if IsLinkWorking(urls[|urls| - 1], ffprobe) then [|urls| - 1] else [])
  }

  /**
   * `working_urls` is the order-preserving sublist of the URLs that pass: it is picked
   * out at strictly increasing positions, and every passing position is picked.
   */
  lemma {:induction false} WorkingIsSublist(urls: seq<string>, ffprobe: string -> Option<(int, string)>)
    ensures var live := Working(urls, ffprobe);
            var pos := WorkingPositions(urls, ffprobe);
            && |pos| == |live|
            && (forall k :: 0 <= k < |pos| ==> pos[k] < |urls| && urls[pos[k]] == live[k])
            && (forall k, l :: 0 <= k < l < |pos| ==> pos[k] < pos[l])
            && (forall i :: 0 <= i < |urls| && IsLinkWorking(urls[i], ffprobe) ==> i in pos)
  {
    PositionsPick(urls, ffprobe);
    PositionsIncrease(urls, ffprobe);
    PositionsComplete(urls, ffprobe);
  }

  lemma {:induction false} PositionsPick(urls: seq<string>, ffprobe: string -> Option<(int, string)>)
    ensures |WorkingPositions(urls, ffprobe)| == |Working(urls, ffprobe)|
    ensures forall k :: 0 <= k < |WorkingPositions(urls, ffprobe)| ==>
              WorkingPositions(urls, ffprobe)[k] < |urls|
              && urls[WorkingPositions(urls, ffprobe)[k]] == Working(urls, ffprobe)[k]
  {
    if urls != [] {
      var p := urls[..|urls| - 1];
      var u := urls[|urls| - 1];
      PositionsPick(p, ffprobe);
      var lp, pp := Working(p, ffprobe), WorkingPositions(p, ffprobe);
      var live, pos := Working(urls, ffprobe), WorkingPositions(urls, ffprobe);
      var ok := IsLinkWorking(u, ffprobe);
      assert live == lp + (if ok then [u] else []);
      assert pos == pp + (if ok then [|urls| - 1] else []);
      forall k | 0 <= k < |pos| ensures pos[k] < |urls| && urls[pos[k]] == live[k] {
        if k < |pp| {
          assert pos[k] == pp[k] && live[k] == lp[k] && p[pp[k]] == urls[pp[k]];
        }
      }
    }
  }

  lemma {:induction false} PositionsIncrease(urls: seq<string>, ffprobe: string -> Option<(int, string)>)
    ensures forall k :: 0 <= k < |WorkingPositions(urls, ffprobe)| ==> WorkingPositions(urls, ffprobe)[k] < |urls|
    ensures forall k, l :: 0 <= k < l < |WorkingPositions(urls, ffprobe)| ==>
              WorkingPositions(urls, ffprobe)[k] < WorkingPositions(urls, ffprobe)[l]
  {
    if urls != [] {
      var p := urls[..|urls| - 1];
      PositionsIncrease(p, ffprobe);
      var pp, pos := WorkingPositions(p, ffprobe), WorkingPositions(urls, ffprobe);
      assert pos == pp + (if IsLinkWorking(urls[|urls| - 1], ffprobe) then [|urls| - 1] else []);
      forall k, l | 0 <= k < l < |pos| ensures pos[k] < pos[l] {
        assert pos[k] == pp[k];
      }
    }
  }

  lemma {:induction false} PositionsComplete(urls: seq<string>, ffprobe: string -> Option<(int, string)>)
    ensures forall i :: 0 <= i < |urls| && IsLinkWorking(urls[i], ffprobe) ==> i in WorkingPositions(urls, ffprobe)
  {
    if urls != [] {
      var p := urls[..|urls| - 1];
      PositionsComplete(p, ffprobe);
      var pp, pos := WorkingPositions(p, ffprobe), WorkingPositions(urls, ffprobe);
      assert pos == pp + (if IsLinkWorking(urls[|urls| - 1], ffprobe) then [|urls| - 1] else []);
      forall i | 0 <= i < |urls| && IsLinkWorking(urls[i], ffprobe) ensures i in pos {
        if i < |p| {
          assert p[i] == urls[i];
        }
      }
    }
  }

  /** Nothing is broken exactly when every URL passes, and then `working_urls` is the whole list. */
  lemma NothingBroken(urls: seq<string>, ffprobe: string -> Option<(int, string)>)
    ensures |Working(urls, ffprobe)| == |urls| <==> forall i :: 0 <= i < |urls| ==> IsLinkWorking(urls[i], ffprobe)
    ensures |Working(urls, ffprobe)| == |urls| ==> Working(urls, ffprobe) == urls
  {
    AllWorkingIff(urls, ffprobe);
    AllWorkingIsWhole(urls, ffprobe);
  }

  lemma {:induction false} AllWorkingIff(urls: seq<string>, ffprobe: string -> Option<(int, string)>)
    ensures |Working(urls, ffprobe)| == |urls| <==> forall i :: 0 <= i < |urls| ==> IsLinkWorking(urls[i], ffprobe)
  {
    if urls != [] {
      var p := urls[..|urls| - 1];
      var last := urls[|urls| - 1];
      AllWorkingIff(p, ffprobe);
      if IsLinkWorking(last, ffprobe) {
        assert |Working(urls, ffprobe)| == |Working(p, ffprobe)| + 1;
        assert (forall i :: 0 <= i < |urls| ==> IsLinkWorking(urls[i], ffprobe))
           <==> (forall i :: 0 <= i < |p| ==> IsLinkWorking(p[i], ffprobe));
      } else {
        assert |Working(urls, ffprobe)| == |Working(p, ffprobe)|;
      }
    }
  }

  lemma {:induction false} AllWorkingIsWhole(urls: seq<string>, ffprobe: string -> Option<(int, string)>)
    ensures |Working(urls, ffprobe)| == |urls| ==> Working(urls, ffprobe) == urls
  {
    if urls != [] {
      var p := urls[..|urls| - 1];
      var last := urls[|urls| - 1];
      AllWorkingIsWhole(p, ffprobe);
      if IsLinkWorking(last, ffprobe) {
        assert Working(urls, ffprobe) == Working(p, ffprobe) + [last];
        assert urls == p + [last];
      }
    }
  }

  /** Filtering keeps a duplicate-free list duplicate-free. */
  lemma {:induction false} WorkingKeepsNoDups(urls: seq<string>, ffprobe: string -> Option<(int, string)>)
    requires NoDups(urls)
    ensures NoDups(Working(urls, ffprobe))
  {
    if urls != [] {
      var p := urls[..|urls| - 1];
      assert NoDups(p);
      WorkingKeepsNoDups(p, ffprobe);
      WorkingMembers(p, ffprobe);
      assert urls[|urls| - 1] !in p;
    }
  }

  /** A candidate that is taken: not yet among the working URLs, and passes the probe. */
  predicate Fits(url: string, working: seq<string>, ffprobe: string -> Option<(int, string)>) {
    url !in working && IsLinkWorking(url, ffprobe)
  }

  /** The first candidate that fits, if any. */
  function Replacement(candidates: seq<string>, working: seq<string>, ffprobe: string -> Option<(int, string)>)
    : (found: Option<string>)
  {
    if candidates == [] then None
    else if Fits(candidates[0], working, ffprobe) then Some(candidates[0])
    else Replacement(candidates[1..], working, ffprobe)
  }

  /** The replacement is the first candidate that fits; there is none when no candidate fits. */
  lemma {:induction false} ReplacementIsFirstFit(candidates: seq<string>, working: seq<string>,
                                                 ffprobe: string -> Option<(int, string)>)
    ensures var found := Replacement(candidates, working, ffprobe);
            found.None? <==> forall k :: 0 <= k < |candidates| ==> !Fits(candidates[k], working, ffprobe)
    ensures var found := Replacement(candidates, working, ffprobe);
            found.Some? ==>
              exists k :: && 0 <= k < |candidates| && candidates[k] == found.value
                          && Fits(candidates[k], working, ffprobe)
                          && forall j :: 0 <= j < k ==> !Fits(candidates[j], working, ffprobe)
  {
    if candidates != [] && !Fits(candidates[0], working, ffprobe) {
      ReplacementIsFirstFit(candidates[1..], working, ffprobe);
      assert forall k :: 1 <= k < |candidates| ==> candidates[k] == candidates[1..][k - 1];
      var found := Replacement(candidates, working, ffprobe);
      if found.Some? {
        var k :| && 0 <= k < |candidates[1..]| && candidates[1..][k] == found.value
                 && Fits(candidates[1..][k], working, ffprobe)
                 && forall j :: 0 <= j < k ==> !Fits(candidates[1..][j], working, ffprobe);
        assert candidates[k + 1] == found.value;
      }
    }
  }

  /**
   * A channel object of a category file: its name (absent when the key is missing), its
   * stream URLs, and its other keys, which the repair never touches.
   */
  datatype LinkChannel = LinkChannel(name: Option<string>, streamUrls: seq<string>, otherKeys: map<string, string>)

  /** `source_links.get(channel_name, [])`. */
  function Candidates(name: Option<string>, links: Links): (candidates: seq<string>) {
    match name
    case None => []
    case Some(n) => Get(links, n)
  }

  predicate HasBroken(ch: LinkChannel, ffprobe: string -> Option<(int, string)>) {
    |Working(ch.streamUrls, ffprobe)| < |ch.streamUrls|
  }

  /** The channel after its turn in `process_json_file`. */
  function Repaired(ch: LinkChannel, links: Links, ffprobe: string -> Option<(int, string)>): (out: LinkChannel) {
    if !HasBroken(ch, ffprobe) then ch
    else
      var live := Working(ch.streamUrls, ffprobe);
      var extra := match Replacement(Candidates(ch.name, links), live, ffprobe) case None => [] case Some(u) => [u];
      ch.(streamUrls := live + extra)
  }

  /**
   * The repair leaves a channel with no broken URL as it is. Otherwise its URLs become
   * the working ones followed by at most one replacement: the first candidate under its
   * exact name that is not already there and passes the probe. Name and other keys
   * never change, and afterwards every URL of the channel passes the probe.
   */
  lemma RepairedShape(ch: LinkChannel, links: Links, ffprobe: string -> Option<(int, string)>)
    ensures var out := Repaired(ch, links, ffprobe);
            && out.name == ch.name && out.otherKeys == ch.otherKeys
            && (!HasBroken(ch, ffprobe) ==> out == ch)
            && (forall u :: u in out.streamUrls ==> IsLinkWorking(u, ffprobe))
    ensures var out := Repaired(ch, links, ffprobe);
            var live := Working(ch.streamUrls, ffprobe);
            var found := Replacement(Candidates(ch.name, links), live, ffprobe);
            HasBroken(ch, ffprobe) ==>
              && out.streamUrls[..|live|] == live
              && (found.None? ==> out.streamUrls == live)
              && (found.Some? ==> out.streamUrls == live + [found.value])
  {
    NothingBroken(ch.streamUrls, ffprobe);
    WorkingMembers(ch.streamUrls, ffprobe);
    ReplacementIsFirstFit(Candidates(ch.name, links), Working(ch.streamUrls, ffprobe), ffprobe);
  }

  /** A channel whose URLs were duplicate-free stays so. */
  lemma RepairedKeepsNoDups(ch: LinkChannel, links: Links, ffprobe: string -> Option<(int, string)>)
    requires NoDups(ch.streamUrls)
    ensures NoDups(Repaired(ch, links, ffprobe).streamUrls)
  {
    WorkingKeepsNoDups(ch.streamUrls, ffprobe);
    ReplacementIsFirstFit(Candidates(ch.name, links), Working(ch.streamUrls, ffprobe), ffprobe);
  }

  /** A second run with the same probe answers changes nothing. */
  lemma RepairIdempotent(ch: LinkChannel, links: Links, ffprobe: string -> Option<(int, string)>)
    ensures Repaired(Repaired(ch, links, ffprobe), links, ffprobe) == Repaired(ch, links, ffprobe)
    ensures !HasBroken(Repaired(ch, links, ffprobe), ffprobe)
  {
    var out := Repaired(ch, links, ffprobe);
    RepairedShape(ch, links, ffprobe);
    NothingBroken(out.streamUrls, ffprobe);
  }

  /** `working_urls`: every URL is probed, in order, and the passing ones are kept. */
  method WorkingUrls(streamUrls: seq<string>, ffprobe: string -> Option<(int, string)>) returns (workingUrls: seq<string>)
    ensures workingUrls == Working(streamUrls, ffprobe)
  {
    workingUrls := [];
    for i := 0 to |streamUrls|
      invariant workingUrls == Working(streamUrls[..i], ffprobe)
    {
      if IsLinkWorking(streamUrls[i], ffprobe) {
        workingUrls := workingUrls + [streamUrls[i]];
      }
      assert streamUrls[..i + 1][..i] == streamUrls[..i];
    }
    assert streamUrls[..|streamUrls|] == streamUrls;
  }

  /** The search loop: the first candidate that is not among the working URLs and passes the probe. */
  method FindReplacement(potentialNewLinks: seq<string>, workingUrls: seq<string>, ffprobe: string -> Option<(int, string)>)
    returns (found: Option<string>)
    ensures found == Replacement(potentialNewLinks, workingUrls, ffprobe)
  {
    found := None;
    var j := 0;
    while j < |potentialNewLinks|
      invariant 0 <= j <= |potentialNewLinks|
      invariant forall k :: 0 <= k < j ==> !Fits(potentialNewLinks[k], workingUrls, ffprobe)
    {
      var newLink := potentialNewLinks[j];
      if newLink !in workingUrls {
        if IsLinkWorking(newLink, ffprobe) {
          found := Some(newLink);
          break;
        }
      }
      j := j + 1;
    }
    ReplacementIsFirstFit(potentialNewLinks, workingUrls, ffprobe);
    if found.Some? {
      assert j < |potentialNewLinks| && Fits(potentialNewLinks[j], workingUrls, ffprobe);
    }
  }

  /** The body of the per-channel loop of `process_json_file`. */
  method RepairChannel(ch: LinkChannel, links: Links, ffprobe: string -> Option<(int, string)>)
    returns (out: LinkChannel, broken: bool)
    ensures out == Repaired(ch, links, ffprobe)
    ensures broken <==> HasBroken(ch, ffprobe)
  {
    var streamUrls := ch.streamUrls;
    var workingUrls := WorkingUrls(streamUrls, ffprobe);
    var brokenUrlsCount := |streamUrls| - |workingUrls|;
    out := ch;
    broken := false;
    if brokenUrlsCount > 0 {
      out := ch.(streamUrls := workingUrls);
      broken := true;
      var potentialNewLinks := Candidates(ch.name, links);
      var found := FindReplacement(potentialNewLinks, workingUrls, ffprobe);
      if found.Some? {
        out := out.(streamUrls := out.streamUrls + [found.value]);
      }
    }
  }

  /**
   * The channel loop of `process_json_file`, updating the file's channels in place; the
   * file is written back exactly when some channel had a broken URL.
   */
  method ProcessLinksFile(channels: array<LinkChannel>, links: Links, ffprobe: string -> Option<(int, string)>)
    returns (fileUpdated: bool)
    modifies channels
    ensures forall i :: 0 <= i < channels.Length ==> channels[i] == Repaired(old(channels[i]), links, ffprobe)
    ensures fileUpdated <==> exists i :: 0 <= i < channels.Length && HasBroken(old(channels[i]), ffprobe)
  {
    ghost var loaded := channels[..];
    fileUpdated := false;
    for i := 0 to channels.Length
      invariant forall k :: 0 <= k < i ==> channels[k] == Repaired(loaded[k], links, ffprobe)
      invariant forall k :: i <= k < channels.Length ==> channels[k] == loaded[k]
      invariant fileUpdated <==> exists k :: 0 <= k < i && HasBroken(loaded[k], ffprobe)
    {
      var out, broken := RepairChannel(channels[i], links, ffprobe);
      channels[i] := out;
      if broken {
        fileUpdated := true;
      }
    }
  }
}
