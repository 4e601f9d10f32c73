/**
 * update_channels.py: rebuilds one category file per filter rule from the upstream
 * catalog, a list of streams joined to a list of channels by channel id.
 *
 * The HTTP HEAD request behind `is_url_working` is the oracle `head`: the status code
 * it gets back, or None when the request raises.
 */
module Channels {
  import opened Wrappers
  import opened Seqs
  import opened Sorting

  /** One entry of the streams catalog; a missing field is "" (Python's None and "" act alike here). */
  datatype Stream = Stream(channel: string, status: string, url: string)

  /** One entry of the channels catalog; a missing logo is "". */
  datatype CatalogChannel = CatalogChannel(
    id: string, name: Option<string>, country: Option<string>, categories: seq<string>, logo: string)

  /** A filter rule: one country code, or any of a list of genre keywords. */
  datatype Rule =
    | CountryRule(country: string, categoryName: string)
    | GenreRule(keywords: seq<string>, categoryName: string)

  /** A channel of the category file left by the previous run; only its logo is read. */
  datatype PriorChannel = PriorChannel(id: string, logoUrl: string)

  /** A channel as written to a category file; `genre` is None when the key is absent. */
  datatype ChannelRecord = ChannelRecord(
    id: string, name: string, logoUrl: string, streamUrls: seq<string>,
    category: string, genre: Option<string>)

  const CategoryConfig: seq<(string, Rule)> := [
    ("categories/bangladesh.json", CountryRule("BD", "Bangladesh")),
    ("categories/india.json", CountryRule("IN", "India")),
    ("categories/usa.json", CountryRule("US", "USA")),
    ("categories/uk.json", CountryRule("GB", "UK")),
    ("categories/uae.json", CountryRule("AE", "UAE")),
    ("categories/sports.json", GenreRule(["sports"], "Sports")),
    ("categories/kids.json", GenreRule(["kids", "animation"], "Kids")),
    ("categories/music.json", GenreRule(["music"], "Music")),
    ("categories/informative.json", GenreRule(["documentary", "education", "science"], "Informative"))
  ]

  const DefaultChannelName := "Unknown"
  const OnlineStatus := "online"
  const MinUrlLength := 5
  const StatusOk := 200

  function NameOf(r: ChannelRecord): (name: string) { r.name }
  function IdOf(r: ChannelRecord): (id: string) { r.id }

  /**
   * `is_url_working`: a URL shorter than five characters fails without a request. For
   * longer URLs the second clause is the definition of the HEAD oracle's verdict: the
   * request, redirects followed, ends in status 200.
   */
  function IsUrlWorking(url: string, head: string -> Option<int>): (ok: bool)
    ensures |url| < MinUrlLength ==> !ok
    ensures |url| >= MinUrlLength ==> (ok <==> head(url) == Some(StatusOk))
  {
    if |url| < MinUrlLength then false else head(url) == Some(StatusOk)
  }

  /** `{c['id']: c for c in channels_data}`: a later entry with the same id wins. */
  function InfoMap(channels: seq<CatalogChannel>): (info: map<string, CatalogChannel>) {
    IndexBy(channels, (c: CatalogChannel) => c.id, (c: CatalogChannel) => c)
  }

  function PriorId(p: PriorChannel): (id: string) { p.id }
  function PriorSelf(p: PriorChannel): (same: PriorChannel) { p }

  /**
   * `load_existing_channels`: `priorFiles` holds the channel lists of the files that
   * exist and parse; any other file gives the empty dictionary.
   */
  function PriorMap(priorFiles: map<string, seq<PriorChannel>>, fileName: string): (prior: map<string, PriorChannel>) {
    if fileName in priorFiles then IndexBy(priorFiles[fileName], PriorId, PriorSelf) else map[]
  }

  /**
   * A missing or unreadable file gives no previous channels. Otherwise an id is known
   * exactly when some channel of the file carries it, and it maps to the last such
   * channel of the file.
   */
  lemma PriorMapLastWins(priorFiles: map<string, seq<PriorChannel>>, fileName: string)
    ensures fileName !in priorFiles ==> PriorMap(priorFiles, fileName) == map[]
    ensures fileName in priorFiles ==>
              forall id :: id in PriorMap(priorFiles, fileName) <==>
                exists i :: 0 <= i < |priorFiles[fileName]| && priorFiles[fileName][i].id == id
    ensures fileName in priorFiles ==>
              forall id :: id in PriorMap(priorFiles, fileName) ==>
                exists i :: && 0 <= i < |priorFiles[fileName]| && priorFiles[fileName][i].id == id
                            && PriorMap(priorFiles, fileName)[id] == priorFiles[fileName][i]
                            && forall j :: i < j < |priorFiles[fileName]| ==> priorFiles[fileName][j].id != id
  {
    if fileName in priorFiles {
      IndexByLastWins(priorFiles[fileName], PriorId, PriorSelf);
    }
  }

  predicate Matches(rule: Rule, c: CatalogChannel) {
    match rule
    case CountryRule(country, _) => c.country == Some(country)
    case GenreRule(keywords, _) => exists i :: 0 <= i < |keywords| && keywords[i] in c.categories
  }

  /** A stream is taken for a rule when its channel is known, it is online, and the channel matches. */
  predicate Contributes(s: Stream, info: map<string, CatalogChannel>, rule: Rule) {
    s.channel != "" && s.channel in info && s.status == OnlineStatus && Matches(rule, info[s.channel])
  }

  /** The filter step of `update_files`, with its `is_match` flag and early `break`. */
  method MatchRule(rule: Rule, c: CatalogChannel) returns (isMatch: bool)
    ensures isMatch <==> Matches(rule, c)
  {
    isMatch := false;
    match rule
    case CountryRule(country, _) =>
      if c.country == Some(country) {
        isMatch := true;
      }
    case GenreRule(keywords, _) =>
      var i := 0;
      while i < |keywords|
        invariant 0 <= i <= |keywords|
        invariant !isMatch
        invariant forall j :: 0 <= j < i ==> keywords[j] !in c.categories
      {
        if keywords[i] in c.categories {
          isMatch := true;
          break;
        }
        i := i + 1;
      }
  }

  function PriorLogo(id: string, prior: map<string, PriorChannel>): (logo: Option<string>) {
    if id in prior then Some(prior[id].logoUrl) else None
  }

  /**
   * The logo fallback chain: the previous run's logo if it still works, else the
   * catalog's logo if it works, else "".
   */
  function ChosenLogo(priorLogo: Option<string>, apiLogo: string, head: string -> Option<int>): (logo: string)
    ensures logo == "" || IsUrlWorking(logo, head)
    ensures priorLogo.Some? && IsUrlWorking(priorLogo.value, head) ==> logo == priorLogo.value
    ensures logo != "" && !(priorLogo.Some? && logo == priorLogo.value) ==> logo == apiLogo
    ensures logo == "" <==>
              !(priorLogo.Some? && IsUrlWorking(priorLogo.value, head)) && !IsUrlWorking(apiLogo, head)
  {
    if priorLogo.Some? && IsUrlWorking(priorLogo.value, head) then priorLogo.value
    else if IsUrlWorking(apiLogo, head) then apiLogo
    else ""
  }

  /** The step-by-step logo selection of `update_files` through `final_logo`. */
  method SelectLogo(id: string, prior: map<string, PriorChannel>, apiLogo: string, head: string -> Option<int>)
    returns (finalLogo: string)
    ensures finalLogo == ChosenLogo(PriorLogo(id, prior), apiLogo, head)
  {
    finalLogo := "";
    if id in prior {
      var oldLogo := prior[id].logoUrl;
      if IsUrlWorking(oldLogo, head) {
        finalLogo := oldLogo;
      }
    }
    if finalLogo == "" {
      if IsUrlWorking(apiLogo, head) {
        finalLogo := apiLogo;
      }
    }
  }

  function GenreField(rule: Rule): (genre: Option<string>) {
    if rule.GenreRule? then Some(rule.categoryName) else None
  }

  /** The record `update_files` creates for a channel id, with its stream URL list. */
  function RecordFor(id: string, c: CatalogChannel, prior: map<string, PriorChannel>, rule: Rule,
                     head: string -> Option<int>, urls: seq<string>): (record: ChannelRecord)
  {
    ChannelRecord(id, c.name.GetOr(DefaultChannelName), ChosenLogo(PriorLogo(id, prior), c.logo, head),
                  urls, rule.categoryName, GenreField(rule))
  }

  /** Channel ids of the streams taken for `rule`, in stream order, repeats included. */
  function ContributingIds(streams: seq<Stream>, info: map<string, CatalogChannel>, rule: Rule): (ids: seq<string>)
    decreases |streams|
  {
    if streams == [] then []
    else
      var s := streams[|streams| - 1];
      ContributingIds(streams[..|streams| - 1], info, rule) + (if Contributes(s, info, rule) then [s.channel] else [])
  }

  /** Non-empty URLs of the streams taken for `rule` under channel `id`, in stream order. */
  function StreamUrlsOf(streams: seq<Stream>, info: map<string, CatalogChannel>, rule: Rule, id: string): (urls: seq<string>)
    decreases |streams|
  {
    if streams == [] then []
    else
      var s := streams[|streams| - 1];
      StreamUrlsOf(streams[..|streams| - 1], info, rule, id)
        + (if Contributes(s, info, rule) && s.channel == id && s.url != "" then [s.url] else [])
  }

  /** An id is listed exactly when some stream taken for the rule carries it. */
  lemma {:induction false} ContributingIdsMembers(streams: seq<Stream>, info: map<string, CatalogChannel>, rule: Rule)
    ensures forall id :: id in ContributingIds(streams, info, rule) <==>
              exists i :: 0 <= i < |streams| && Contributes(streams[i], info, rule) && streams[i].channel == id
    decreases |streams|
  {
    if streams != [] {
      var p := streams[..|streams| - 1];
      ContributingIdsMembers(p, info, rule);
      assert forall i :: 0 <= i < |p| ==> p[i] == streams[i];
    }
  }

  /** A URL is listed exactly when some stream taken for the rule under `id` carries it, and it is not "". */
  lemma {:induction false} StreamUrlsOfMembers(streams: seq<Stream>, info: map<string, CatalogChannel>, rule: Rule, id: string)
    ensures forall u :: u in StreamUrlsOf(streams, info, rule, id) <==>
              exists i :: && 0 <= i < |streams| && Contributes(streams[i], info, rule)
                          && streams[i].channel == id && streams[i].url == u && u != ""
    decreases |streams|
  {
    if streams != [] {
      var p := streams[..|streams| - 1];
      StreamUrlsOfMembers(p, info, rule, id);
      assert forall i :: 0 <= i < |p| ==> p[i] == streams[i];
    }
  }

  lemma ContributingIdsInInfo(streams: seq<Stream>, info: map<string, CatalogChannel>, rule: Rule)
    ensures forall id :: id in ContributingIds(streams, info, rule) ==> id in info
  {
    ContributingIdsMembers(streams, info, rule);
  }

  /** A channel id that has a stream URL was contributed by some stream. */
  lemma UrlsNeedContribution(streams: seq<Stream>, info: map<string, CatalogChannel>, rule: Rule, id: string)
    ensures StreamUrlsOf(streams, info, rule, id) != [] ==> id in ContributingIds(streams, info, rule)
  {
    ContributingIdsMembers(streams, info, rule);
    StreamUrlsOfMembers(streams, info, rule, id);
    var urls := StreamUrlsOf(streams, info, rule, id);
    if urls != [] {
      assert urls[0] in urls;
    }
  }

  lemma ContributingIdsSnoc(p: seq<Stream>, s: Stream, info: map<string, CatalogChannel>, rule: Rule)
    ensures ContributingIds(p + [s], info, rule)
         == ContributingIds(p, info, rule) + (if Contributes(s, info, rule) then [s.channel] else [])
  {
    assert (p + [s])[..|p|] == p;
  }

  lemma StreamUrlsOfSnoc(p: seq<Stream>, s: Stream, info: map<string, CatalogChannel>, rule: Rule, id: string)
    ensures StreamUrlsOf(p + [s], info, rule, id)
         == StreamUrlsOf(p, info, rule, id)
            + (if Contributes(s, info, rule) && s.channel == id && s.url != "" then [s.url] else [])
  {
    assert (p + [s])[..|p|] == p;
  }

  /**
   * The records of one category before sorting: one per matched channel id, in the
   * order in which the ids were first matched (the insertion order of `new_channel_dict`).
   */
  function CategoryRecords(streams: seq<Stream>, info: map<string, CatalogChannel>,
                           prior: map<string, PriorChannel>, rule: Rule, head: string -> Option<int>): (records: seq<ChannelRecord>)
  {
    var ids := Dedup(ContributingIds(streams, info, rule));
    ContributingIdsInInfo(streams, info, rule);
    seq(|ids|, k requires 0 <= k < |ids| =>
      RecordFor(ids[k], info[ids[k]], prior, rule, head, Dedup(StreamUrlsOf(streams, info, rule, ids[k]))))
  }

  /** The contents of one category file: its records sorted by name. */
  function CategoryFile(streams: seq<Stream>, info: map<string, CatalogChannel>,
                        prior: map<string, PriorChannel>, rule: Rule, head: string -> Option<int>): (channels: seq<ChannelRecord>)
  {
    SortBy(CategoryRecords(streams, info, prior, rule, head), NameOf)
  }

  /** The loop state of `update_files` after the streams `p`: the table holds one record per matched id. */
  ghost predicate TableAgrees(table: map<string, ChannelRecord>, order: seq<string>, p: seq<Stream>,
                              info: map<string, CatalogChannel>, prior: map<string, PriorChannel>,
                              rule: Rule, head: string -> Option<int>)
  {
    && order == Dedup(ContributingIds(p, info, rule))
    && (forall id :: id in table <==> id in order)
    && (forall id :: id in table ==> id in info)
    && (forall id :: id in table ==>
          table[id] == RecordFor(id, info[id], prior, rule, head, Dedup(StreamUrlsOf(p, info, rule, id))))
  }

  lemma StepSkipped(table: map<string, ChannelRecord>, order: seq<string>, p: seq<Stream>, s: Stream,
                    info: map<string, CatalogChannel>, prior: map<string, PriorChannel>,
                    rule: Rule, head: string -> Option<int>)
    requires TableAgrees(table, order, p, info, prior, rule, head)
    requires !Contributes(s, info, rule)
    ensures TableAgrees(table, order, p + [s], info, prior, rule, head)
  {
    ContributingIdsSnoc(p, s, info, rule);
    assert ContributingIds(p + [s], info, rule) == ContributingIds(p, info, rule);
    forall id | id in table
      ensures StreamUrlsOf(p + [s], info, rule, id) == StreamUrlsOf(p, info, rule, id)
    {
      StreamUrlsOfSnoc(p, s, info, rule, id);
    }
  }

  /** The URL list of the stream's own channel after the stream is taken. */
  lemma StepTakenUrls(urls: seq<string>, p: seq<Stream>, s: Stream, info: map<string, CatalogChannel>, rule: Rule)
    requires Contributes(s, info, rule)
    requires urls == if s.channel in ContributingIds(p, info, rule) then Dedup(StreamUrlsOf(p, info, rule, s.channel)) else []
    ensures (if s.url != "" && s.url !in urls then urls + [s.url] else urls)
            == Dedup(StreamUrlsOf(p + [s], info, rule, s.channel))
  {
    StreamUrlsOfSnoc(p, s, info, rule, s.channel);
    UrlsNeedContribution(p, info, rule, s.channel);
    var before := StreamUrlsOf(p, info, rule, s.channel);
    assert urls == Dedup(before);
    if s.url != "" {
      assert StreamUrlsOf(p + [s], info, rule, s.channel) == before + [s.url];
      DedupSnoc(before, s.url);
    } else {
      assert StreamUrlsOf(p + [s], info, rule, s.channel) == before;
    }
  }

  /**
   * Taking a stream gives its channel the record built from its new URL list and
   * leaves the URL lists of the other channels alone.
   */
  lemma StepTakenRecords(table: map<string, ChannelRecord>, p: seq<Stream>, s: Stream,
                         info: map<string, CatalogChannel>, prior: map<string, PriorChannel>,
                         rule: Rule, head: string -> Option<int>, urls': seq<string>)
    requires s.channel in info
    requires forall id :: id in table ==> id in info
    requires forall id :: id in table ==>
               table[id] == RecordFor(id, info[id], prior, rule, head, Dedup(StreamUrlsOf(p, info, rule, id)))
    requires urls' == Dedup(StreamUrlsOf(p + [s], info, rule, s.channel))
    ensures var table' := table[s.channel := RecordFor(s.channel, info[s.channel], prior, rule, head, urls')];
            forall id :: id in table' ==>
              table'[id] == RecordFor(id, info[id], prior, rule, head, Dedup(StreamUrlsOf(p + [s], info, rule, id)))
  {
    forall id | id in table && id != s.channel
      ensures StreamUrlsOf(p + [s], info, rule, id) == StreamUrlsOf(p, info, rule, id)
    {
      StreamUrlsOfSnoc(p, s, info, rule, id);
    }
  }

  /** Taking a stream appends its channel to the insertion order on first sight only. */
  lemma StepTakenOrder<R>(table: map<string, R>, order: seq<string>, p: seq<Stream>, s: Stream,
                          info: map<string, CatalogChannel>, rule: Rule, r: R)
    requires order == Dedup(ContributingIds(p, info, rule))
    requires forall id :: id in table <==> id in order
    requires Contributes(s, info, rule)
    ensures var order' := if s.channel in table then order else order + [s.channel];
            && order' == Dedup(ContributingIds(p + [s], info, rule))
            && (forall id :: id in table[s.channel := r] <==> id in order')
  {
    ContributingIdsSnoc(p, s, info, rule);
    DedupSnoc(ContributingIds(p, info, rule), s.channel);
  }

  lemma StepTaken(table: map<string, ChannelRecord>, order: seq<string>, p: seq<Stream>, s: Stream,
                  info: map<string, CatalogChannel>, prior: map<string, PriorChannel>,
                  rule: Rule, head: string -> Option<int>)
    requires TableAgrees(table, order, p, info, prior, rule, head)
    requires Contributes(s, info, rule)
    ensures var urls := if s.channel in table then table[s.channel].streamUrls else [];
            var urls' := if s.url != "" && s.url !in urls then urls + [s.url] else urls;
            TableAgrees(table[s.channel := RecordFor(s.channel, info[s.channel], prior, rule, head, urls')],
                        if s.channel in table then order else order + [s.channel],
                        p + [s], info, prior, rule, head)
  {
    var c := s.channel;
    var urls := if c in table then table[c].streamUrls else [];
    var urls' := if s.url != "" && s.url !in urls then urls + [s.url] else urls;
    StepTakenOrder(table, order, p, s, info, rule, RecordFor(c, info[c], prior, rule, head, urls'));
    assert c in table <==> c in ContributingIds(p, info, rule);
    StepTakenUrls(urls, p, s, info, rule);
    StepTakenRecords(table, p, s, info, prior, rule, head, urls');
    var table' := table[c := RecordFor(c, info[c], prior, rule, head, urls')];
    var order' := if c in table then order else order + [c];
    assert TableAgrees(table', order', p + [s], info, prior, rule, head);
  }

  /**
   * The body of the stream loop for a stream that is taken: the record of its channel
   * is created on first sight (name, chosen logo, no URLs yet), then its URL is added
   * unless empty or already present.
   */
  method TakeStream(table: map<string, ChannelRecord>, order: seq<string>, ghost p: seq<Stream>, s: Stream,
                    info: map<string, CatalogChannel>, prior: map<string, PriorChannel>,
                    rule: Rule, head: string -> Option<int>)
    returns (table': map<string, ChannelRecord>, order': seq<string>)
    requires TableAgrees(table, order, p, info, prior, rule, head)
    requires Contributes(s, info, rule)
    ensures TableAgrees(table', order', p + [s], info, prior, rule, head)
  {
    StepTaken(table, order, p, s, info, prior, rule, head);
    order' := order;
    var rec: ChannelRecord;
    if s.channel !in table {
      var logo := SelectLogo(s.channel, prior, info[s.channel].logo, head);
      rec := ChannelRecord(s.channel, info[s.channel].name.GetOr(DefaultChannelName),
                           logo, [], rule.categoryName, GenreField(rule));
      order' := order + [s.channel];
    } else {
      rec := table[s.channel];
    }
    if s.url != "" && s.url !in rec.streamUrls {
      rec := rec.(streamUrls := rec.streamUrls + [s.url]);
    }
    table' := table[s.channel := rec];
  }

  lemma AgreesOnPrefix(table: map<string, ChannelRecord>, order: seq<string>, streams: seq<Stream>, i: nat,
                       info: map<string, CatalogChannel>, prior: map<string, PriorChannel>,
                       rule: Rule, head: string -> Option<int>)
    requires i < |streams|
    requires TableAgrees(table, order, streams[..i] + [streams[i]], info, prior, rule, head)
    ensures TableAgrees(table, order, streams[..i + 1], info, prior, rule, head)
  {
    assert streams[..i + 1] == streams[..i] + [streams[i]];
  }

  /** `list(new_channel_dict.values())`: the records in insertion order. */
  function Values(table: map<string, ChannelRecord>, order: seq<string>): (values: seq<ChannelRecord>)
    requires forall id :: id in order ==> id in table
  {
    seq(|order|, k requires 0 <= k < |order| => table[order[k]])
  }

  lemma ValuesAreRecords(table: map<string, ChannelRecord>, order: seq<string>, streams: seq<Stream>,
                         info: map<string, CatalogChannel>, prior: map<string, PriorChannel>,
                         rule: Rule, head: string -> Option<int>)
    requires TableAgrees(table, order, streams, info, prior, rule, head)
    ensures forall id :: id in order ==> id in table
    ensures Values(table, order) == CategoryRecords(streams, info, prior, rule, head)
  {
  }

  /** The stream loop of `update_files` for one rule, then the sort by name. */
  method BuildCategory(streams: seq<Stream>, info: map<string, CatalogChannel>,
                       prior: map<string, PriorChannel>, rule: Rule, head: string -> Option<int>)
    returns (channels: seq<ChannelRecord>)
    ensures channels == CategoryFile(streams, info, prior, rule, head)
  {
    var table: map<string, ChannelRecord> := map[];
    // Python dictionaries remember insertion order; `order` holds it for `table`.
    var order: seq<string> := [];
    var i := 0;
    while i < |streams|
      invariant 0 <= i <= |streams|
      invariant TableAgrees(table, order, streams[..i], info, prior, rule, head)
    {
      var s := streams[i];
      var taken := false;
      if s.channel != "" && s.channel in info && s.status == OnlineStatus {
        taken := MatchRule(rule, info[s.channel]);
      }
      if taken {
        table, order := TakeStream(table, order, streams[..i], s, info, prior, rule, head);
      } else {
        StepSkipped(table, order, streams[..i], s, info, prior, rule, head);
      }
      AgreesOnPrefix(table, order, streams, i, info, prior, rule, head);
      i := i + 1;
    }
    assert streams[..i] == streams;
    ValuesAreRecords(table, order, streams, info, prior, rule, head);
    var finalList := Values(table, order);
    channels := SortBy(finalList, NameOf);
  }

  /** The category files written for the rules `config`, in order. */
  function CategoryFiles(config: seq<(string, Rule)>, streams: seq<Stream>, info: map<string, CatalogChannel>,
                         priorFiles: map<string, seq<PriorChannel>>, head: string -> Option<int>)
    : (files: seq<(string, seq<ChannelRecord>)>)
    decreases |config|
  {
    if config == [] then []
    else
      var entry := config[|config| - 1];
      CategoryFiles(config[..|config| - 1], streams, info, priorFiles, head)
        + [(entry.0, CategoryFile(streams, info, PriorMap(priorFiles, entry.0), entry.1, head))]
  }

  lemma CategoryFilesSnoc(config: seq<(string, Rule)>, k: nat, streams: seq<Stream>, info: map<string, CatalogChannel>,
                          priorFiles: map<string, seq<PriorChannel>>, head: string -> Option<int>)
    requires k < |config|
    ensures CategoryFiles(config[..k + 1], streams, info, priorFiles, head)
         == CategoryFiles(config[..k], streams, info, priorFiles, head)
            + [(config[k].0, CategoryFile(streams, info, PriorMap(priorFiles, config[k].0), config[k].1, head))]
  {
    assert config[..k + 1][..k] == config[..k];
  }

  /** The loop of `update_files` over the configured rules. */
  method BuildFiles(config: seq<(string, Rule)>, streams: seq<Stream>, info: map<string, CatalogChannel>,
                    priorFiles: map<string, seq<PriorChannel>>, head: string -> Option<int>)
    returns (written: seq<(string, seq<ChannelRecord>)>)
    ensures written == CategoryFiles(config, streams, info, priorFiles, head)
  {
    written := [];
    var k := 0;
    while k < |config|
      invariant 0 <= k <= |config|
      invariant written == CategoryFiles(config[..k], streams, info, priorFiles, head)
    {
      var entry := config[k];
      var channels := BuildCategory(streams, info, PriorMap(priorFiles, entry.0), entry.1, head);
      CategoryFilesSnoc(config, k, streams, info, priorFiles, head);
      written := written + [(entry.0, channels)];
      k := k + 1;
    }
    assert config[..k] == config;
  }

  /** `update_files`: one category file per configured rule, none when the catalog fetch failed. */
  method UpdateFiles(catalog: Option<(seq<Stream>, seq<CatalogChannel>)>,
                     priorFiles: map<string, seq<PriorChannel>>, head: string -> Option<int>)
    returns (written: seq<(string, seq<ChannelRecord>)>)
    ensures catalog.None? ==> written == []
    ensures catalog.Some? ==>
              written == CategoryFiles(CategoryConfig, catalog.value.0, InfoMap(catalog.value.1), priorFiles, head)
  {
    written := [];
    if catalog.Some? {
      written := BuildFiles(CategoryConfig, catalog.value.0, InfoMap(catalog.value.1), priorFiles, head);
    }
  }

  /** Each configured rule gets its file, in configuration order. */
  lemma {:induction false} CategoryFilesPerRule(config: seq<(string, Rule)>, streams: seq<Stream>,
                                                info: map<string, CatalogChannel>,
                                                priorFiles: map<string, seq<PriorChannel>>, head: string -> Option<int>)
    ensures |CategoryFiles(config, streams, info, priorFiles, head)| == |config|
    ensures forall k :: 0 <= k < |config| ==>
              CategoryFiles(config, streams, info, priorFiles, head)[k]
                == (config[k].0, CategoryFile(streams, info, PriorMap(priorFiles, config[k].0), config[k].1, head))
    decreases |config|
  {
    if config != [] {
      var init := config[..|config| - 1];
      var last := config[|config| - 1];
      CategoryFilesPerRule(init, streams, info, priorFiles, head);
      var files := CategoryFiles(config, streams, info, priorFiles, head);
      assert files == CategoryFiles(init, streams, info, priorFiles, head)
                      + [(last.0, CategoryFile(streams, info, PriorMap(priorFiles, last.0), last.1, head))];
      forall k | 0 <= k < |config|
        ensures files[k] == (config[k].0, CategoryFile(streams, info, PriorMap(priorFiles, config[k].0), config[k].1, head))
      {
        if k < |init| {
          assert init[k] == config[k];
        }
      }
    }
  }

  /** The category file is sorted by name, stably, and holds exactly the records built for the rule. */
  lemma CategoryFileSorted(streams: seq<Stream>, info: map<string, CatalogChannel>,
                           prior: map<string, PriorChannel>, rule: Rule, head: string -> Option<int>)
    ensures SortedBy(CategoryFile(streams, info, prior, rule, head), NameOf)
    ensures multiset(CategoryFile(streams, info, prior, rule, head))
         == multiset(CategoryRecords(streams, info, prior, rule, head))
    ensures forall name :: WithKey(CategoryFile(streams, info, prior, rule, head), NameOf, name)
                        == WithKey(CategoryRecords(streams, info, prior, rule, head), NameOf, name)
  {
    var recs := CategoryRecords(streams, info, prior, rule, head);
    SortByIsSorted(recs, NameOf);
    SortByIsPermutation(recs, NameOf);
    forall name ensures WithKey(SortBy(recs, NameOf), NameOf, name) == WithKey(recs, NameOf, name) {
      SortByIsStable(recs, NameOf, name);
    }
  }

  /** The ids of a list of records, in order. */
  function IdsOf(rs: seq<ChannelRecord>): (ids: seq<string>) {
    seq(|rs|, k requires 0 <= k < |rs| => rs[k].id)
  }

  lemma CategoryRecordsIds(streams: seq<Stream>, info: map<string, CatalogChannel>,
                           prior: map<string, PriorChannel>, rule: Rule, head: string -> Option<int>)
    ensures IdsOf(CategoryRecords(streams, info, prior, rule, head)) == Dedup(ContributingIds(streams, info, rule))
  {
  }

  lemma SameElements(xs: seq<ChannelRecord>, ys: seq<ChannelRecord>)
    requires multiset(xs) == multiset(ys)
    ensures forall r :: r in xs <==> r in ys
  {
    forall r ensures r in xs <==> r in ys {
      assert r in xs <==> r in multiset(xs);
      assert r in ys <==> r in multiset(ys);
    }
  }

  /** No channel id occurs twice in a category file. */
  lemma CategoryFileIdsUnique(streams: seq<Stream>, info: map<string, CatalogChannel>,
                              prior: map<string, PriorChannel>, rule: Rule, head: string -> Option<int>)
    ensures DistinctBy(CategoryFile(streams, info, prior, rule, head), IdOf)
  {
    var recs := CategoryRecords(streams, info, prior, rule, head);
    CategoryRecordsIds(streams, info, prior, rule, head);
    assert DistinctBy(recs, IdOf) by {
      forall a, b | 0 <= a < b < |recs| ensures recs[a].id != recs[b].id {
        assert IdsOf(recs)[a] == recs[a].id && IdsOf(recs)[b] == recs[b].id;
      }
    }
    SortByKeepsDistinct(recs, NameOf, IdOf);
  }

  /**
   * The category file has a record for a channel id exactly when some online stream of
   * a matching known channel carries it: channels of the previous file that did not
   * match again are dropped.
   */
  lemma CategoryFileChannels(streams: seq<Stream>, info: map<string, CatalogChannel>,
                             prior: map<string, PriorChannel>, rule: Rule, head: string -> Option<int>)
    ensures forall id :: id in IdsOf(CategoryFile(streams, info, prior, rule, head)) <==>
              exists i :: 0 <= i < |streams| && Contributes(streams[i], info, rule) && streams[i].channel == id
  {
    CategoryFileSorted(streams, info, prior, rule, head);
    SameIds(CategoryFile(streams, info, prior, rule, head), CategoryRecords(streams, info, prior, rule, head));
    CategoryRecordsIds(streams, info, prior, rule, head);
    ContributingIdsMembers(streams, info, rule);
  }

  /** Two lists of records that are permutations of each other carry the same ids. */
  lemma SameIds(xs: seq<ChannelRecord>, ys: seq<ChannelRecord>)
    requires multiset(xs) == multiset(ys)
    ensures forall id :: id in IdsOf(xs) <==> id in IdsOf(ys)
  {
    SameElements(xs, ys);
    forall id | id in IdsOf(xs) ensures id in IdsOf(ys) {
      var k :| 0 <= k < |xs| && IdsOf(xs)[k] == id;
      assert xs[k] in ys;
      var m :| 0 <= m < |ys| && ys[m] == xs[k];
      assert IdsOf(ys)[m] == id;
    }
    forall id | id in IdsOf(ys) ensures id in IdsOf(xs) {
      var k :| 0 <= k < |ys| && IdsOf(ys)[k] == id;
      assert ys[k] in xs;
      var m :| 0 <= m < |xs| && xs[m] == ys[k];
      assert IdsOf(xs)[m] == id;
    }
  }

  /**
   * Each record of a category file: its name comes from the catalog ("Unknown" when
   * absent), its logo from the fallback chain, its category is the rule's name, it has
   * a genre exactly for a genre rule, and its stream URLs are the de-duplicated
   * non-empty URLs of the streams taken for it.
   */
  lemma CategoryFileRecords(streams: seq<Stream>, info: map<string, CatalogChannel>,
                            prior: map<string, PriorChannel>, rule: Rule, head: string -> Option<int>)
    ensures forall r :: r in CategoryFile(streams, info, prior, rule, head) ==>
              && r.id in info
              && r.name == info[r.id].name.GetOr(DefaultChannelName)
              && r.logoUrl == ChosenLogo(PriorLogo(r.id, prior), info[r.id].logo, head)
              && r.category == rule.categoryName
              && (r.genre.Some? <==> rule.GenreRule?)
              && (r.genre.Some? ==> r.genre.value == rule.categoryName)
              && r.streamUrls == Dedup(StreamUrlsOf(streams, info, rule, r.id))
  {
    CategoryFileSorted(streams, info, prior, rule, head);
    SameElements(CategoryFile(streams, info, prior, rule, head), CategoryRecords(streams, info, prior, rule, head));
    CategoryRecordsBuilt(streams, info, prior, rule, head);
  }

  lemma CategoryRecordsBuilt(streams: seq<Stream>, info: map<string, CatalogChannel>,
                             prior: map<string, PriorChannel>, rule: Rule, head: string -> Option<int>)
    ensures forall r :: r in CategoryRecords(streams, info, prior, rule, head) ==>
              && r.id in info
              && r == RecordFor(r.id, info[r.id], prior, rule, head, Dedup(StreamUrlsOf(streams, info, rule, r.id)))
  {
    var recs := CategoryRecords(streams, info, prior, rule, head);
    CategoryRecordsIds(streams, info, prior, rule, head);
    ContributingIdsInInfo(streams, info, rule);
    forall r | r in recs
      ensures && r.id in info
              && r == RecordFor(r.id, info[r.id], prior, rule, head, Dedup(StreamUrlsOf(streams, info, rule, r.id)))
    {
      var m :| 0 <= m < |recs| && recs[m] == r;
      assert IdsOf(recs)[m] == r.id;
    }
  }

  /**
   * A channel's stream URLs hold no duplicate and no empty entry, are exactly the URLs
   * of the streams taken for it, and keep the order in which those URLs first appear.
   */
  lemma StreamUrlsShape(streams: seq<Stream>, info: map<string, CatalogChannel>, rule: Rule, id: string)
    ensures NoDups(Dedup(StreamUrlsOf(streams, info, rule, id)))
    ensures "" !in Dedup(StreamUrlsOf(streams, info, rule, id))
    ensures forall u :: u in Dedup(StreamUrlsOf(streams, info, rule, id)) <==>
              exists i :: && 0 <= i < |streams| && Contributes(streams[i], info, rule)
                          && streams[i].channel == id && streams[i].url == u && u != ""
    ensures var all := StreamUrlsOf(streams, info, rule, id);
            var urls := Dedup(all);
            forall i, j :: 0 <= i < j < |urls| ==> FirstIndex(all, urls[i]) < FirstIndex(all, urls[j])
  {
    StreamUrlsOfMembers(streams, info, rule, id);
    DedupKeepsFirstSeenOrder(StreamUrlsOf(streams, info, rule, id));
  }

  /** The channels of a written category file as the next run's `load_existing_channels` reads them. */
  function Reread(out: seq<ChannelRecord>): (prior: seq<PriorChannel>)
    ensures |prior| == |out|
  {
    seq(|out|, k requires 0 <= k < |out| => PriorChannel(out[k].id, out[k].logoUrl))
  }

  /** Offering the chain's own choice as the previous logo leads to the same choice. */
  lemma ChosenLogoStable(priorLogo: Option<string>, apiLogo: string, head: string -> Option<int>)
    ensures ChosenLogo(Some(ChosenLogo(priorLogo, apiLogo, head)), apiLogo, head)
         == ChosenLogo(priorLogo, apiLogo, head)
  {
  }

  /** A channel id taken for the rule appears in the written file. */
  lemma TakenIdIsWritten(streams: seq<Stream>, info: map<string, CatalogChannel>,
                         prior: map<string, PriorChannel>, rule: Rule, head: string -> Option<int>, id: string)
    requires id in ContributingIds(streams, info, rule)
    ensures id in IdsOf(CategoryFile(streams, info, prior, rule, head))
  {
    ContributingIdsMembers(streams, info, rule);
    var j :| 0 <= j < |streams| && Contributes(streams[j], info, rule) && streams[j].channel == id;
    CategoryFileChannels(streams, info, prior, rule, head);
  }

  /** Reading back a file that lists `id` gives `id` the logo of one of its records. */
  lemma RereadFinds(out: seq<ChannelRecord>, id: string) returns (i: nat)
    requires id in IdsOf(out)
    ensures i < |out| && out[i].id == id
    ensures var reread := IndexBy(Reread(out), PriorId, PriorSelf);
            id in reread && reread[id].logoUrl == out[i].logoUrl
  {
    var xs := Reread(out);
    var m :| 0 <= m < |out| && IdsOf(out)[m] == id;
    IndexByLastWins(xs, PriorId, PriorSelf);
    assert PriorId(xs[m]) == id;
    i :| 0 <= i < |xs| && PriorId(xs[i]) == id && IndexBy(xs, PriorId, PriorSelf)[id] == PriorSelf(xs[i]);
  }

  /** Reading a written file back gives every taken channel the logo that was written for it. */
  lemma RereadLogo(out: seq<ChannelRecord>, streams: seq<Stream>, info: map<string, CatalogChannel>,
                   prior: map<string, PriorChannel>, rule: Rule, head: string -> Option<int>, id: string)
    requires out == CategoryFile(streams, info, prior, rule, head)
    requires id in ContributingIds(streams, info, rule)
    ensures id in info
    ensures var reread := IndexBy(Reread(out), PriorId, PriorSelf);
            id in reread && reread[id].logoUrl == ChosenLogo(PriorLogo(id, prior), info[id].logo, head)
  {
    TakenIdIsWritten(streams, info, prior, rule, head, id);
    var i := RereadFinds(out, id);
    CategoryFileRecords(streams, info, prior, rule, head);
    assert out[i] in out;
  }

  /**
   * Running the merge again on an unchanged catalog, with the file it wrote as the
   * previous file, writes the same file: every kept logo is offered back and kept.
   */
  lemma CategoryFileIdempotent(streams: seq<Stream>, info: map<string, CatalogChannel>,
                               priorFiles: map<string, seq<PriorChannel>>, fileName: string,
                               rule: Rule, head: string -> Option<int>)
    ensures var out := CategoryFile(streams, info, PriorMap(priorFiles, fileName), rule, head);
            CategoryFile(streams, info, PriorMap(priorFiles[fileName := Reread(out)], fileName), rule, head) == out
  {
    var prior := PriorMap(priorFiles, fileName);
    var out := CategoryFile(streams, info, prior, rule, head);
    var prior' := PriorMap(priorFiles[fileName := Reread(out)], fileName);
    assert prior' == IndexBy(Reread(out), PriorId, PriorSelf);
    var ids := Dedup(ContributingIds(streams, info, rule));
    var before := CategoryRecords(streams, info, prior, rule, head);
    var after := CategoryRecords(streams, info, prior', rule, head);
    forall k | 0 <= k < |ids| ensures after[k] == before[k] {
      RereadLogo(out, streams, info, prior, rule, head, ids[k]);
      ChosenLogoStable(PriorLogo(ids[k], prior), info[ids[k]].logo, head);
    }
    assert after == before;
  }
}
