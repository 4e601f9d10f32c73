/**
 * The event builder of `update_events.py`: the known channels are gathered from the
 * category files, upcoming matches are read from schedule cards, and each match gets
 * its team logos and the channels a keyword table associates with its text.
 */
module Events {
  import opened Wrappers
  import opened Text
  import opened Seqs

  /** `CHANNEL_MAPPING_RULES`: keywords (tournaments first, then teams) and their channel ids, in table order. */
  const MappingRules: seq<(string, seq<string>)> := [
    ("asia cup", ["gtv_bd", "tsports_bd", "star_sports_1_in"]),
    ("indian premier league", ["star_sports_1_in", "colors_in"]),
    ("the ashes", ["sky_sports_main_event_uk", "sony_ten_5_in", "willow_cricket_hd"]),
    ("t20 world cup", ["gtv_bd", "tsports_bd", "star_sports_1_in", "ptv_sports_pk", "willow_cricket_hd"]),
    ("odi world cup", ["gtv_bd", "tsports_bd", "star_sports_1_in", "ptv_sports_pk", "willow_cricket_hd"]),
    ("premier league", ["sky_sports_main_event_uk", "sky_sports_football_uk"]),
    ("champions league", ["bein_sports_1_hd", "sport_tv_1_pt"]),
    ("india", ["star_sports_1_in", "sony_ten_1_in", "dd_sports_in"]),
    ("bangladesh", ["gtv_bd", "tsports_bd"]),
    ("pakistan", ["ptv_sports_pk", "ten_sports_pk"]),
    ("england", ["sky_sports_main_event_uk"]),
    ("australia", ["fox_sports_au", "willow_cricket_hd"])
  ]

  /** `TEAM_LOGOS`: team keywords and logo URLs, in table order. */
  const TeamLogos: seq<(string, string)> := [
    ("india", "https://www.cricbuzz.com/a/img/v1/25x25/i1/c172115/india.jpg"),
    ("pakistan", "https://www.cricbuzz.com/a/img/v1/25x25/i1/c172119/pakistan.jpg"),
    ("bangladesh", "https://www.cricbuzz.com/a/img/v1/25x25/i1/c172120/bangladesh.jpg"),
    ("australia", "https://www.cricbuzz.com/a/img/v1/25x25/i1/c172112/australia.jpg"),
    ("england", "https://www.cricbuzz.com/a/img/v1/25x25/i1/c172114/england.jpg"),
    ("south africa", "https://www.cricbuzz.com/a/img/v1/25x25/i1/c172117/south-africa.jpg"),
    ("new zealand", "https://www.cricbuzz.com/a/img/v1/25x25/i1/c172113/new-zealand.jpg"),
    ("sri lanka", "https://www.cricbuzz.com/a/img/v1/25x25/i1/c172118/sri-lanka.jpg"),
    ("afghanistan", "https://www.cricbuzz.com/a/img/v1/25x25/i1/c172121/afghanistan.jpg"),
    ("west indies", "https://www.cricbuzz.com/a/img/v1/25x25/i1/c172116/west-indies.jpg"),
    ("ireland", "https://www.cricbuzz.com/a/img/v1/25x25/i1/c172122/ireland.jpg"),
    ("zimbabwe", "https://www.cricbuzz.com/a/img/v1/25x25/i1/c172123/zimbabwe.jpg")
  ]

  const DefaultTournament: string := "International Match"

  // ---------------------------------------------------------------------------------
  // Team logos

  /** The position of the first entry whose key occurs in `text`, or `|table|` if none does. */
  function FirstKeyIn(table: seq<(string, string)>, text: string): (k: nat)
    ensures k <= |table|
    decreases |table|
  {
    if table == [] then 0
    else if Contains(text, table[0].0) then 0
    else 1 + FirstKeyIn(table[1..], text)
  }

  /** The entry found has its key in `text`, and no earlier entry does. */
  lemma {:induction false} FirstKeyInIsFirst(table: seq<(string, string)>, text: string)
    ensures FirstKeyIn(table, text) < |table| ==> Contains(text, table[FirstKeyIn(table, text)].0)
    ensures forall j :: 0 <= j < FirstKeyIn(table, text) ==> !Contains(text, table[j].0)
    decreases |table|
  {
    if table != [] && !Contains(text, table[0].0) {
      FirstKeyInIsFirst(table[1..], text);
    }
  }

  /** `get_logo_for_team`: the logo of the first table key found in the lower-cased name, else "". */
  function LogoForTeam(teamName: string): (logo: string) {
    var k := FirstKeyIn(TeamLogos, Lower(teamName));
    if k < |TeamLogos| then TeamLogos[k].1 else ""
  }

  /**
   * The logo is that of the first key, in table order, occurring in the lower-cased
   * name; it is "" exactly when no key occurs, so it is always "" or a table logo.
   */
  lemma LogoForTeamFirstMatch(teamName: string)
    ensures LogoForTeam(teamName) == "" <==>
              forall k :: 0 <= k < |TeamLogos| ==> !Contains(Lower(teamName), TeamLogos[k].0)
    ensures LogoForTeam(teamName) != "" ==>
              exists k :: && 0 <= k < |TeamLogos|
                          && LogoForTeam(teamName) == TeamLogos[k].1
                          && Contains(Lower(teamName), TeamLogos[k].0)
                          && forall j :: 0 <= j < k ==> !Contains(Lower(teamName), TeamLogos[j].0)
  {
    var k := FirstKeyIn(TeamLogos, Lower(teamName));
    FirstKeyInIsFirst(TeamLogos, Lower(teamName));
    if k < |TeamLogos| {
      assert TeamLogos[k].1 != "" by { LogosNonEmpty(k); }
    }
  }

  lemma LogosNonEmpty(k: nat)
    requires k < |TeamLogos|
    ensures TeamLogos[k].1 != ""
  {
    assert |TeamLogos[k].1| > 0;
  }

  // ---------------------------------------------------------------------------------
  // Channel ids for an event

  /**
   * `id` is listed under some keyword, among the first `n` rules, that occurs in
   * `lowerText`, and it is a known channel.
   */
  ghost predicate MatchedBy(id: string, lowerText: string, available: map<string, string>, n: nat)
    requires n <= |MappingRules|
  {
    id in available && exists r :: 0 <= r < n && Contains(lowerText, MappingRules[r].0) && id in MappingRules[r].1
  }

  /** The ids `map_event_to_channels` associates with `eventText`, whatever their order. */
  ghost predicate Mapped(id: string, eventText: string, available: map<string, string>) {
    MatchedBy(id, Lower(eventText), available, |MappingRules|)
  }

  /** `list(s)` for a set: every element once, in an order the set does not fix. */
  method ListOfSet(s: set<string>) returns (xs: seq<string>)
    ensures NoDups(xs)
    ensures forall x :: x in xs <==> x in s
  {
    xs := [];
    var rest := s;
    while rest != {}
      invariant rest <= s
      invariant NoDups(xs)
      invariant forall x :: x in xs <==> x in s && x !in rest
      decreases |rest|
    {
      var x :| x in rest;
      xs := xs + [x];
      rest := rest - {x};
    }
  }

  /**
   * `map_event_to_channels`: the known channel ids listed under the keywords occurring
   * in the lower-cased event text, each once.
   */
  method MapEventToChannels(eventText: string, available: map<string, string>) returns (ids: seq<string>)
    ensures NoDups(ids)
    ensures forall id :: id in ids <==> Mapped(id, eventText, available)
  {
    var matched: set<string> := {};
    var lowerText := Lower(eventText);
    for r := 0 to |MappingRules|
      invariant forall id :: id in matched <==> MatchedBy(id, lowerText, available, r)
    {
      var keyword := MappingRules[r].0;
      var channelIds := MappingRules[r].1;
      if Contains(lowerText, keyword) {
        for j := 0 to |channelIds|
          invariant forall id :: id in matched <==>
                      MatchedBy(id, lowerText, available, r) || (id in channelIds[..j] && id in available)
        {
          if channelIds[j] in available {
            matched := matched + {channelIds[j]};
          }
          assert channelIds[..j + 1] == channelIds[..j] + [channelIds[j]];
        }
        assert channelIds[..|channelIds|] == channelIds;
      }
    }
    ids := ListOfSet(matched);
  }

  /** Only known channels are ever mapped, and the case of the event text does not matter. */
  lemma MappedIgnoresCase(id: string, eventText: string, available: map<string, string>)
    ensures Mapped(id, eventText, available) ==> id in available
    ensures Mapped(id, Upper(eventText), available) <==> Mapped(id, eventText, available)
    ensures Mapped(id, Lower(eventText), available) <==> Mapped(id, eventText, available)
  {
    assert Lower(Upper(eventText)) == Lower(eventText);
    assert Lower(Lower(eventText)) == Lower(eventText);
  }

  // ---------------------------------------------------------------------------------
  // Known channels

  /** A channel record of a category file: `id` is `None` when missing or null, `name` is "" when missing. */
  datatype ChannelEntry = ChannelEntry(id: Option<string>, name: string)

  /**
   * A directory entry of the categories directory: its file name and, when it reads as
   * a JSON object, the records under its `"channels"` key (`[]` when there is none).
   */
  datatype ChannelFile = ChannelFile(fileName: string, channels: Option<seq<ChannelEntry>>)

  /** The files `load_all_channels` reads: JSON files other than the events file. */
  predicate Scanned(f: ChannelFile) {
    EndsWith(f.fileName, ".json") && f.fileName != "events.json"
  }

  /** The (id, lower-cased name) pairs one file contributes: records with a non-empty id. */
  function FilePairs(entries: seq<ChannelEntry>): (pairs: seq<(string, string)>) {
    if entries == [] then []
    else
      var e := entries[|entries| - 1];
      FilePairs(entries[..|entries| - 1])
      + (if e.id.Some? && e.id.value != "" then [(e.id.value, Lower(e.name))] else [])
  }

  /** The pairs of every scanned, readable file, in directory order. */
  function ChannelPairs(files: seq<ChannelFile>): (pairs: seq<(string, string)>) {
    if files == [] then []
    else
      var f := files[|files| - 1];
      ChannelPairs(files[..|files| - 1])
      + (if Scanned(f) && f.channels.Some? then FilePairs(f.channels.value) else [])
  }

  function PairKey(p: (string, string)): (key: string) { p.0 }
  function PairValue(p: (string, string)): (value: string) { p.1 }

  lemma IndexBySnoc(xs: seq<(string, string)>, x: (string, string))
    ensures IndexBy(xs + [x], PairKey, PairValue) == IndexBy(xs, PairKey, PairValue)[x.0 := x.1]
  {
    assert (xs + [x])[..|xs|] == xs;
  }

  /** The records of one file, added one by one to the dictionary. */
  method LoadFile(allChannels: map<string, string>, ghost before: seq<(string, string)>, entries: seq<ChannelEntry>)
    returns (result: map<string, string>)
    requires allChannels == IndexBy(before, PairKey, PairValue)
    ensures result == IndexBy(before + FilePairs(entries), PairKey, PairValue)
  {
    result := allChannels;
    assert before + FilePairs(entries[..0]) == before;
    for j := 0 to |entries|
      invariant result == IndexBy(before + FilePairs(entries[..j]), PairKey, PairValue)
    {
      var e := entries[j];
      assert entries[..j + 1][..j] == entries[..j];
      if e.id.Some? && e.id.value != "" {
        IndexBySnoc(before + FilePairs(entries[..j]), (e.id.value, Lower(e.name)));
        assert before + FilePairs(entries[..j + 1]) == before + FilePairs(entries[..j]) + [(e.id.value, Lower(e.name))];
        result := result[e.id.value := Lower(e.name)];
      } else {
        assert before + FilePairs(entries[..j + 1]) == before + FilePairs(entries[..j]);
      }
    }
    assert entries[..|entries|] == entries;
  }

  /**
   * `load_all_channels` over the listed directory: the dictionary from channel id to
   * lower-cased name, where a later record overwrites an earlier one.
   */
  method LoadAllChannels(files: seq<ChannelFile>) returns (allChannels: map<string, string>)
    ensures allChannels == IndexBy(ChannelPairs(files), PairKey, PairValue)
  {
    allChannels := map[];
    for i := 0 to |files|
      invariant allChannels == IndexBy(ChannelPairs(files[..i]), PairKey, PairValue)
    {
      var f := files[i];
      assert files[..i + 1][..i] == files[..i];
      assert ChannelPairs(files[..i + 1])
             == ChannelPairs(files[..i]) + (if Scanned(f) && f.channels.Some? then FilePairs(f.channels.value) else []);
      if Scanned(f) && f.channels.Some? {
        allChannels := LoadFile(allChannels, ChannelPairs(files[..i]), f.channels.value);
      } else {
        assert ChannelPairs(files[..i + 1]) == ChannelPairs(files[..i]);
      }
    }
    assert files[..|files|] == files;
  }

  lemma {:induction false} FilePairsMembers(entries: seq<ChannelEntry>)
    ensures forall p :: p in FilePairs(entries) <==>
              exists e :: e in entries && e.id == Some(p.0) && p.0 != "" && p.1 == Lower(e.name)
  {
    if entries != [] {
      var init := entries[..|entries| - 1];
      FilePairsMembers(init);
      assert entries == init + [entries[|entries| - 1]];
    }
  }

  lemma {:induction false} ChannelPairsMembers(files: seq<ChannelFile>)
    ensures forall p :: p in ChannelPairs(files) <==>
              exists f :: f in files && Scanned(f) && f.channels.Some? && p in FilePairs(f.channels.value)
  {
    if files != [] {
      var init := files[..|files| - 1];
      ChannelPairsMembers(init);
      assert files == init + [files[|files| - 1]];
    }
  }

  /** `id` is the non-empty id of a record in a scanned file. */
  ghost predicate Listed(files: seq<ChannelFile>, id: string) {
    exists f, e :: f in files && Scanned(f) && f.channels.Some? && e in f.channels.value && e.id == Some(id) && id != ""
  }

  /**
   * An id is known exactly when some scanned file has a record with that non-empty id;
   * its name is the lower-cased name of the last such record read.
   */
  lemma LoadedChannels(files: seq<ChannelFile>)
    ensures var all := IndexBy(ChannelPairs(files), PairKey, PairValue);
            forall id :: id in all <==> Listed(files, id)
    ensures var pairs := ChannelPairs(files);
            var all := IndexBy(pairs, PairKey, PairValue);
            forall id :: id in all ==>
              exists i :: && 0 <= i < |pairs| && pairs[i] == (id, all[id])
                          && forall j :: i < j < |pairs| ==> pairs[j].0 != id
  {
    var pairs := ChannelPairs(files);
    IndexByLastWins(pairs, PairKey, PairValue);
    var all := IndexBy(pairs, PairKey, PairValue);
    forall id ensures id in all <==> Listed(files, id) {
      LoadedId(files, id);
    }
  }

  lemma LoadedId(files: seq<ChannelFile>, id: string)
    ensures id in IndexBy(ChannelPairs(files), PairKey, PairValue) <==> Listed(files, id)
  {
    var pairs := ChannelPairs(files);
    IndexByLastWins(pairs, PairKey, PairValue);
    if Listed(files, id) {
      var p := ListedPair(files, id);
      var i :| 0 <= i < |pairs| && pairs[i] == p;
      assert PairKey(pairs[i]) == id;
    }
    if id in IndexBy(pairs, PairKey, PairValue) {
      var i :| 0 <= i < |pairs| && PairKey(pairs[i]) == id;
      PairIsListed(files, pairs[i]);
    }
  }

  lemma ListedPair(files: seq<ChannelFile>, id: string) returns (p: (string, string))
    requires Listed(files, id)
    ensures p in ChannelPairs(files) && p.0 == id
  {
    var f, e :| f in files && Scanned(f) && f.channels.Some? && e in f.channels.value
                && e.id == Some(id) && id != "";
    FilePairsMembers(f.channels.value);
    ChannelPairsMembers(files);
    p := (id, Lower(e.name));
    assert p in FilePairs(f.channels.value);
  }

  lemma PairIsListed(files: seq<ChannelFile>, p: (string, string))
    requires p in ChannelPairs(files)
    ensures Listed(files, p.0)
  {
    ChannelPairsMembers(files);
    var f :| f in files && Scanned(f) && f.channels.Some? && p in FilePairs(f.channels.value);
    FilePairsMembers(f.channels.value);
  }

  // ---------------------------------------------------------------------------------
  // Schedule cards

  /** The two team names of a card title: the text before the first comma, split on " vs ". */
  function TeamsOf(title: string): (teams: Option<(string, string)>) {
    var teams := Split(Split(title, ",")[0], " vs ");
    if |teams| < 2 then None else Some((Strip(teams[0]), Strip(teams[1])))
  }

  /** A card has teams exactly when " vs " occurs before the first comma; the names come stripped. */
  lemma TeamsOfShape(title: string)
    ensures TeamsOf(title).Some? <==> Contains(Split(title, ",")[0], " vs ")
    ensures TeamsOf(title).Some? ==>
              var (team1, team2) := TeamsOf(title).value;
              && (team1 == [] || (!IsSpace(team1[0]) && !IsSpace(team1[|team1| - 1])))
              && (team2 == [] || (!IsSpace(team2[0]) && !IsSpace(team2[|team2| - 1])))
    ensures var head := Split(title, ",")[0];
            |head| <= |title| && head == title[..|head|] && ',' !in head && (|head| == |title| || title[|head|] == ',')
    ensures TeamsOf(title).Some? ==>
              exists x, y, rest :: VsPieces(Split(title, ",")[0], x, y, rest) && TeamsOf(title).value == (Strip(x), Strip(y))
  {
    TeamsOfPieces(title);
    SplitCountIff(Split(title, ",")[0], " vs ");
    var teams := Split(Split(title, ",")[0], " vs ");
    if |teams| >= 2 {
      StripIsTrimmedSlice(teams[0]);
      StripIsTrimmedSlice(teams[1]);
    }
  }

  /**
   * `x` and `y` are the first two pieces of `head` between occurrences of " vs ": `head`
   * reads `x vs y` or `x vs y vs rest`, the first " vs " starts right after `x`, and the
   * next one that does not overlap it starts right after `y`, if anywhere.
   */
  predicate VsPieces(head: string, x: string, y: string, rest: string) {
    && !Contains(x, " vs ") && !Contains(y, " vs ")
    && (forall i :: 0 <= i < |x| ==> !OccursAt(head, " vs ", i))
    && (forall i :: |x| + 4 <= i < |x| + 4 + |y| ==> !OccursAt(head, " vs ", i))
    && (head == x + " vs " + y || head == x + " vs " + y + " vs " + rest)
  }

  /** Where `VsPieces` puts the pieces: `x` opens `head`, `y` follows the first " vs ", and a " vs " or the end follows `y`. */
  lemma VsPiecesPositions(head: string, x: string, y: string, rest: string)
    requires VsPieces(head, x, y, rest)
    ensures |x| + 4 + |y| <= |head| && x == head[..|x|] && y == head[|x| + 4..|x| + 4 + |y|]
    ensures OccursAt(head, " vs ", |x|)
    ensures |x| + 4 + |y| == |head| || OccursAt(head, " vs ", |x| + 4 + |y|)
  {
    assert |" vs "| == 4;
    if head == x + " vs " + y {
      assert head[|x|..|x| + 4] == " vs ";
    } else {
      var e := |x| + 4 + |y|;
      assert head == x + " vs " + y + " vs " + rest;
      assert head[|x|..|x| + 4] == " vs ";
      assert head[e..e + 4] == " vs ";
    }
  }

  /** `head` determines its first two pieces: no other split fits `VsPieces`. */
  lemma VsPiecesUnique(head: string, x: string, y: string, rest: string, x': string, y': string, rest': string)
    requires VsPieces(head, x, y, rest) && VsPieces(head, x', y', rest')
    ensures x == x' && y == y'
  {
    VsPiecesPositions(head, x, y, rest);
    VsPiecesPositions(head, x', y', rest');
    assert |x'| <= |x| && |x| <= |x'|;
    assert |y'| <= |y| by {
      if |x| + 4 + |y| < |head| {
        assert OccursAt(head, " vs ", |x| + 4 + |y|);
      }
    }
    assert |y| <= |y'| by {
      if |x'| + 4 + |y'| < |head| {
        assert OccursAt(head, " vs ", |x'| + 4 + |y'|);
      }
    }
  }

  /** With overlapping separators, "a vs vs b" splits as "a" and "vs b", never as "a vs" and "b". */
  lemma OverlappingVsSplit()
    ensures VsPieces("a vs vs b", "a", "vs b", "")
    ensures !VsPieces("a vs vs b", "a vs", "b", "")
  {
    var head := "a vs vs b";
    assert OccursAt(head, " vs ", 1) by {
      assert head[1..5] == " vs ";
    }
    assert !OccursAt(head, " vs ", 0) by {
      assert head[0] != ' ';
    }
    assert !OccursAt(head, " vs ", 5) by {
      assert head[5] != ' ';
    }
    assert head == "a" + " vs " + "vs b";
    assert !Contains("a", " vs ") by {
      ShorterHasNoOccurrence("a", " vs ");
    }
    assert !Contains("vs b", " vs ") by {
      ContainsIff("vs b", " vs ");
      assert !OccursAt("vs b", " vs ", 0) by {
        assert "vs b"[0] != ' ';
      }
    }
  }

  /**
   * The teams come from the title's text before its first comma: the first two pieces
   * of that text between occurrences of " vs ", stripped.
   */
  lemma TeamsOfPieces(title: string)
    ensures var head := Split(title, ",")[0];
            |head| <= |title| && head == title[..|head|] && ',' !in head && (|head| == |title| || title[|head|] == ',')
    ensures TeamsOf(title).Some? ==>
              exists x, y, rest :: VsPieces(Split(title, ",")[0], x, y, rest) && TeamsOf(title).value == (Strip(x), Strip(y))
  {
    assert "," == [','];
    SplitFirstPiece(title, ',');
    var head := Split(title, ",")[0];
    var teams := Split(head, " vs ");
    if |teams| >= 2 {
      SplitVsPieces(head, teams);
      assert TeamsOf(title).value == (Strip(teams[0]), Strip(teams[1]));
    }
  }

  /** The first two pieces of a split on " vs " are the pieces `VsPieces` describes. */
  lemma SplitVsPieces(head: string, teams: seq<string>)
    requires teams == Split(head, " vs ") && |teams| >= 2
    ensures VsPieces(head, teams[0], teams[1], Join(teams[2..], " vs "))
  {
    SplitJoin(head, " vs ");
    JoinFirstTwo(teams, " vs ");
    SplitPiecesAvoidSep(head, " vs ");
    LaterPiecesLeftmost(head, teams);
  }

  /** No " vs " starts inside the first two pieces of a split of `head` on " vs ". */
  lemma LaterPiecesLeftmost(head: string, teams: seq<string>)
    requires teams == Split(head, " vs ") && |teams| >= 2
    ensures forall i :: 0 <= i < |teams[0]| ==> !OccursAt(head, " vs ", i)
    ensures forall i :: |teams[0]| + 4 <= i < |teams[0]| + 4 + |teams[1]| ==> !OccursAt(head, " vs ", i)
  {
    assert |" vs "| == 4;
    SplitFirstHasNoOccurrence(head, " vs ");
    SplitSecondHasNoOccurrence(head, " vs ");
  }

  /** Python's `re.search(r"'(.*?)'", s).group(1)`: `.` matches anything but a newline. */
  function QuotedDate(s: string): (date: Option<string>)
    decreases |s|
  {
    if '\'' !in s then None
    else
      var rest := s[FirstIndex(s, '\'') + 1..];
      if '\'' !in rest then None
      else
        var j := FirstIndex(rest, '\'');
        if '\n' !in rest[..j] then Some(rest[..j]) else QuotedDate(rest)
  }

  /** Positions `i < j` hold quotes with no newline between them: the pattern can match from `i`. */
  predicate QuotePair(s: string, i: int, j: int) {
    0 <= i < j < |s| && s[i] == '\'' && s[j] == '\'' && '\n' !in s[i + 1..j]
  }

  /** `d` is the text between the quote at `i` and the next quote. */
  predicate QuotedAt(s: string, i: int, d: string) {
    && 0 <= i && i + |d| + 1 < |s|
    && s[i] == '\'' && s[i + 1..i + |d| + 1] == d && s[i + |d| + 1] == '\''
    && '\'' !in d && '\n' !in d
  }

  /**
   * The date is the text inside the leftmost quote pair with no newline between the
   * quotes; there is no date exactly when no such pair exists.
   */
  lemma {:induction false} QuotedDateIsLeftmostMatch(s: string)
    ensures QuotedDate(s).Some? ==>
              exists i :: QuotedAt(s, i, QuotedDate(s).value) && forall i', j' :: QuotePair(s, i', j') ==> i <= i'
    ensures QuotedDate(s).None? ==> forall i, j :: !QuotePair(s, i, j)
    decreases |s|
  {
    if '\'' in s {
      var q := FirstIndex(s, '\'');
      var rest := s[q + 1..];
      NoPairBeforeFirstQuote(s, q);
      PairsShift(s, q);
      if '\'' in rest {
        var j := FirstIndex(rest, '\'');
        if '\n' !in rest[..j] {
          QuotedAtFirst(s, q, j);
        } else {
          QuotedDateIsLeftmostMatch(rest);
          NoPairFromFirstQuote(s, q, j);
          assert QuotedDate(s) == QuotedDate(rest);
          LeftmostAfterFirstQuote(s, q, rest, QuotedDate(rest));
        }
      }
    }
  }

  /** The leftmost match of the text after the first quote is the leftmost match of `s`. */
  lemma LeftmostAfterFirstQuote(s: string, q: nat, rest: string, found: Option<string>)
    requires q < |s| && rest == s[q + 1..]
    requires forall i', j' :: QuotePair(s, i', j') ==> q <= i'
    requires forall j' :: !QuotePair(s, q, j')
    requires forall i', j' :: QuotePair(s, i', j') && q < i' ==> QuotePair(rest, i' - q - 1, j' - q - 1)
    requires found.Some? ==>
               exists i :: QuotedAt(rest, i, found.value) && forall i', j' :: QuotePair(rest, i', j') ==> i <= i'
    requires found.None? ==> forall i, j :: !QuotePair(rest, i, j)
    ensures found.Some? ==> exists i :: QuotedAt(s, i, found.value) && forall i', j' :: QuotePair(s, i', j') ==> i <= i'
    ensures found.None? ==> forall i, j :: !QuotePair(s, i, j)
  {
    if found.Some? {
      var d := found.value;
      var i :| QuotedAt(rest, i, d) && forall i', j' :: QuotePair(rest, i', j') ==> i <= i';
      QuotedShift(s, q, i, d);
      assert forall i', j' :: QuotePair(s, i', j') ==> q + 1 + i <= i';
    }
  }

  lemma NoPairBeforeFirstQuote(s: string, q: nat)
    requires q < |s| && '\'' !in s[..q]
    ensures forall i', j' :: QuotePair(s, i', j') ==> q <= i'
  {
    forall i' | 0 <= i' < q ensures s[i'] != '\'' {
      assert s[i'] in s[..q];
    }
  }

  /** A match starting after position `q` is a match in the text after `q`. */
  lemma PairsShift(s: string, q: nat)
    requires q < |s|
    ensures forall i', j' :: QuotePair(s, i', j') && q < i' ==> QuotePair(s[q + 1..], i' - q - 1, j' - q - 1)
    ensures forall i', j' :: QuotePair(s, i', j') && q == i' ==> j' - q - 1 < |s[q + 1..]| && s[q + 1..][j' - q - 1] == '\''
  {
    forall i', j' | QuotePair(s, i', j') && q < i'
      ensures QuotePair(s[q + 1..], i' - q - 1, j' - q - 1)
    {
      assert s[i' + 1..j'] == s[q + 1..][i' - q..j' - q - 1];
    }
  }

  lemma QuotedAtFirst(s: string, q: nat, j: nat)
    requires q < |s| && s[q] == '\''
    requires j < |s[q + 1..]| && s[q + 1..][j] == '\'' && '\'' !in s[q + 1..][..j] && '\n' !in s[q + 1..][..j]
    ensures QuotedAt(s, q, s[q + 1..][..j])
  {
    assert s[q + 1..q + 1 + j] == s[q + 1..][..j];
  }

  lemma QuotedShift(s: string, q: nat, i: int, d: string)
    requires q < |s| && QuotedAt(s[q + 1..], i, d)
    ensures QuotedAt(s, q + 1 + i, d)
  {
    assert s[q + 1 + i + 1..q + 1 + i + |d| + 1] == s[q + 1..][i + 1..i + |d| + 1];
  }

  /** No match starts at the first quote when a newline comes before the second. */
  lemma NoPairFromFirstQuote(s: string, q: nat, j: nat)
    requires q < |s|
    requires j < |s[q + 1..]| && '\'' !in s[q + 1..][..j] && '\n' in s[q + 1..][..j]
    ensures forall j' :: !QuotePair(s, q, j')
  {
    assert s[q + 1..][..j] == s[q + 1..q + 1 + j];
    var k :| q + 1 <= k < q + 1 + j && s[k] == '\n';
    forall j' | q < j' < |s| && s[j'] == '\'' ensures '\n' in s[q + 1..j'] {
      assert s[k] in s[q + 1..j'];
    }
  }

  /**
   * A schedule card as the page presents it: the title link text, the series line,
   * the GMT time text and the `ng-if` attribute of the date span; `None` for a part
   * the card lacks.
   */
  datatype Card = Card(title: Option<string>, series: Option<string>, time: Option<string>, dateAttr: Option<string>)

  /** An entry of `events.json`. */
  datatype Event = Event(title: string, team1Logo: string, team2Logo: string, startTime: string,
                         tournament: string, channelIds: seq<string>)

  /**
   * What one card yields before its channels are looked up: `None` when the card is
   * skipped. `parseTime` is `strptime` on "%b %d, %Y %H:%M" followed by `strftime`,
   * `None` when the text does not parse (the exception that skips the card), and
   * `logoFor` is the team-logo lookup, `LogoForTeam` in `ScrapeSchedule`.
   */
  function CardEvent(card: Card, parseTime: string -> Option<string>, logoFor: string -> string): (event: Option<Event>) {
    if || card.title.None? || TeamsOf(Strip(card.title.value)).None?
       || card.time.None? || card.dateAttr.None? || QuotedDate(card.dateAttr.value).None?
    then None
    else
      var title := Strip(card.title.value);
      var teams := TeamsOf(title).value;
      var tournament := if card.series.Some? then Strip(card.series.value) else DefaultTournament;
      var timeStr := Replace(Strip(card.time.value), " GMT", "");
      var start := parseTime(QuotedDate(card.dateAttr.value).value + " " + timeStr);
      if start.None? then None
      else Some(Event(title, logoFor(teams.0), logoFor(teams.1), start.value, tournament, []))
  }

  /**
   * The fields of an accepted card's event: the tournament falls back to "International
   * Match" and each logo is "" or one of the table's logos.
   */
  lemma CardEventFields(card: Card, parseTime: string -> Option<string>)
    requires CardEvent(card, parseTime, LogoForTeam).Some?
    ensures card.series.None? ==> CardEvent(card, parseTime, LogoForTeam).value.tournament == DefaultTournament
    ensures var e := CardEvent(card, parseTime, LogoForTeam).value;
            && (e.team1Logo == "" || exists k :: 0 <= k < |TeamLogos| && e.team1Logo == TeamLogos[k].1)
            && (e.team2Logo == "" || exists k :: 0 <= k < |TeamLogos| && e.team2Logo == TeamLogos[k].1)
  {
    var teams := TeamsOf(Strip(card.title.value)).value;
    var e := CardEvent(card, parseTime, LogoForTeam).value;
    assert e.team1Logo == LogoForTeam(teams.0) && e.team2Logo == LogoForTeam(teams.1);
    LogoForTeamFirstMatch(teams.0);
    LogoForTeamFirstMatch(teams.1);
  }

  /** The events of the accepted cards, in card order, before their channels are looked up. */
  function Accepted(cards: seq<Card>, parseTime: string -> Option<string>, logoFor: string -> string): (events: seq<Event>) {
    if cards == [] then []
    else
      Accepted(cards[..|cards| - 1], parseTime, logoFor)
      + (match CardEvent(cards[|cards| - 1], parseTime, logoFor) case None => [] case Some(e) => [e])
  }

  /** Accepting one more card appends its event, if it has one. */
  lemma AcceptedSnoc(cards: seq<Card>, i: nat, parseTime: string -> Option<string>)
    requires i < |cards|
    ensures Accepted(cards[..i + 1], parseTime, LogoForTeam)
         == Accepted(cards[..i], parseTime, LogoForTeam)
            + (match CardEvent(cards[i], parseTime, LogoForTeam) case None => [] case Some(e) => [e])
  {
    assert cards[..i + 1][..i] == cards[..i];
  }

  /**
   * `events` are `accepted` with their channels filled in: each with no repeated
   * channel and exactly the channels mapped from its title and tournament.
   */
  ghost predicate WithChannels(events: seq<Event>, accepted: seq<Event>, available: map<string, string>) {
    && |events| == |accepted|
    && forall k :: 0 <= k < |events| ==>
         && events[k].(channelIds := []) == accepted[k]
         && NoDups(events[k].channelIds)
         && forall id :: id in events[k].channelIds <==> Mapped(id, events[k].title + " " + events[k].tournament, available)
  }

  lemma WithChannelsAppend(events: seq<Event>, accepted: seq<Event>, more: seq<Event>, moreAccepted: seq<Event>,
                           available: map<string, string>)
    requires WithChannels(events, accepted, available) && WithChannels(more, moreAccepted, available)
    ensures WithChannels(events + more, accepted + moreAccepted, available)
  {
    var all := events + more;
    forall k | |events| <= k < |all| ensures all[k] == more[k - |events|] {}
  }

  /**
   * `scrape_cricbuzz_schedule` after the page has been fetched and its cards located:
   * one event per accepted card, in card order, each with the channels mapped from
   * its title and tournament.
   */
  method ScrapeSchedule(cards: seq<Card>, available: map<string, string>, parseTime: string -> Option<string>)
    returns (events: seq<Event>)
    ensures |events| == |Accepted(cards, parseTime, LogoForTeam)|
    ensures forall k :: 0 <= k < |events| ==> events[k].(channelIds := []) == Accepted(cards, parseTime, LogoForTeam)[k]
    ensures forall k :: 0 <= k < |events| ==> NoDups(events[k].channelIds)
    ensures forall k :: 0 <= k < |events| ==> forall id ::
              id in events[k].channelIds <==> Mapped(id, events[k].title + " " + events[k].tournament, available)
  {
    events := [];
    for i := 0 to |cards|
      invariant WithChannels(events, Accepted(cards[..i], parseTime, LogoForTeam), available)
    {
      AcceptedSnoc(cards, i, parseTime);
      var added := ScrapeCard(cards[i], available, parseTime);
      WithChannelsAppend(events, Accepted(cards[..i], parseTime, LogoForTeam), added,
                         match CardEvent(cards[i], parseTime, LogoForTeam) case None => [] case Some(e) => [e], available);
      events := events + added;
    }
    assert cards[..|cards|] == cards;
  }

  /** The events one card contributes, with their channels. */
  method ScrapeCard(card: Card, available: map<string, string>, parseTime: string -> Option<string>)
    returns (added: seq<Event>)
    ensures WithChannels(added, match CardEvent(card, parseTime, LogoForTeam) case None => [] case Some(e) => [e], available)
  {
    var parsed := CardEvent(card, parseTime, LogoForTeam);
    added := [];
    if parsed.Some? {
      var e := parsed.value;
      var ids := MapEventToChannels(e.title + " " + e.tournament, available);
      added := [e.(channelIds := ids)];
    }
  }
}
