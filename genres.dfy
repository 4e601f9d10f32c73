/**
 * The genre backfill of `update_genres.py`: channels of a category file whose genre is
 * missing, empty or "Unknown" are sent to an AI classifier, whose free-text answer is
 * mapped onto a fixed list of labels; a recognised label is stored in upper case.
 */
module Genres {
  import opened Wrappers
  import opened Text

  /** The labels the classifier is asked to choose from, in the order they are tried. */
  const ValidGenres: seq<string> :=
    ["Sports", "News", "Entertainment", "Movies", "Music", "Kids", "Informative", "Lifestyle", "Religion", "Unknown"]

  const UnknownGenre: string := "Unknown"

  /** The position of the first label whose lower-case form occurs in `text`, or `|labels|` if none does. */
  function FirstMatch(labels: seq<string>, text: string): (k: nat)
    ensures k <= |labels|
    ensures k < |labels| ==> Contains(text, Lower(labels[k]))
    ensures forall j :: 0 <= j < k ==> !Contains(text, Lower(labels[j]))
    decreases |labels|
  {
    if labels == [] then 0
    else if Contains(text, Lower(labels[0])) then 0
    else 1 + FirstMatch(labels[1..], text)
  }

  /** The clean-up of the classifier's answer: the first valid label mentioned in it, ignoring case. */
  function LabelFor(content: string): (chosen: string)
    ensures chosen in ValidGenres
  {
    var k := FirstMatch(ValidGenres, Lower(content));
    if k < |ValidGenres| then ValidGenres[k] else UnknownGenre
  }

  /**
   * The label is the first entry of the list, in list order, whose lower-case form
   * occurs in the lower-cased answer; when no entry occurs the label is "Unknown".
   */
  lemma LabelForFirstMatch(content: string)
    ensures (exists k :: 0 <= k < |ValidGenres| && Contains(Lower(content), Lower(ValidGenres[k])))
            ==> exists k :: && 0 <= k < |ValidGenres|
                            && LabelFor(content) == ValidGenres[k]
                            && Contains(Lower(content), Lower(ValidGenres[k]))
                            && forall j :: 0 <= j < k ==> !Contains(Lower(content), Lower(ValidGenres[j]))
    ensures (forall k :: 0 <= k < |ValidGenres| ==> !Contains(Lower(content), Lower(ValidGenres[k])))
            ==> LabelFor(content) == UnknownGenre
  {
    var k := FirstMatch(ValidGenres, Lower(content));
    if k == |ValidGenres| {
      assert forall j :: 0 <= j < |ValidGenres| ==> !Contains(Lower(content), Lower(ValidGenres[j]));
    }
  }

  /**
   * What the chat-completion endpoint gave back: the HTTP status and, when the body is
   * JSON with a `choices[0].message.content` string, that string.
   */
  datatype Reply = Reply(status: int, content: Option<string>)

  /**
   * `get_genre_from_ai`. The request is the oracle `post`, keyed by the channel name the
   * prompt is built from; `None` stands for a connection error or timeout.
   */
  function GenreFromAi(name: string, apiKey: Option<string>, post: string -> Option<Reply>): (genre: string)
    ensures genre in ValidGenres
  {
    if apiKey.None? || apiKey == Some("") then UnknownGenre
    else match post(name)
      case None => UnknownGenre
      case Some(reply) =>
        if reply.status != 200 then UnknownGenre
        else match reply.content
          case None => UnknownGenre
          case Some(c) => LabelFor(Strip(c))
  }

  /**
   * A label other than "Unknown" comes only from a configured key and a successful
   * reply whose content carries it; a missing key, a failed request, a status other
   * than 200 or a malformed body all give "Unknown".
   */
  lemma GenreFromAiFailures(name: string, apiKey: Option<string>, post: string -> Option<Reply>)
    ensures GenreFromAi(name, apiKey, post) != UnknownGenre <==>
              && apiKey.Some? && apiKey.value != ""
              && post(name).Some? && post(name).value.status == 200
              && post(name).value.content.Some?
              && LabelFor(Strip(post(name).value.content.value)) != UnknownGenre
    ensures GenreFromAi(name, apiKey, post) != UnknownGenre ==>
              GenreFromAi(name, apiKey, post) == LabelFor(Strip(post(name).value.content.value))
  {
    var answered := && apiKey.Some? && apiKey.value != ""
                    && post(name).Some? && post(name).value.status == 200
                    && post(name).value.content.Some?;
    if answered {
      assert GenreFromAi(name, apiKey, post) == LabelFor(Strip(post(name).value.content.value));
    } else {
      assert GenreFromAi(name, apiKey, post) == UnknownGenre;
    }
  }

  /**
   * The classifier `process_json_file` calls for each channel name: `get_genre_from_ai`
   * with the key and the endpoint fixed.
   */
  function Classifier(apiKey: Option<string>, post: string -> Option<Reply>): (classify: string -> string) {
    name => GenreFromAi(name, apiKey, post)
  }

  /**
   * A channel of a category file. `genre` is `None` when the key is missing or null;
   * `name` is "" when the key is missing; `otherKeys` holds the fields the backfill
   * never reads.
   */
  datatype GenreChannel = GenreChannel(name: string, genre: Option<string>, otherKeys: map<string, string>)

  /** `current_genre == "Unknown" or not current_genre`. */
  predicate NeedsGenre(ch: GenreChannel) {
    ch.genre.None? || ch.genre == Some("") || ch.genre == Some(UnknownGenre)
  }

  /** The classifier is asked about `ch` and gives back a recognised label. */
  predicate SetsGenre(ch: GenreChannel, classify: string -> string) {
    NeedsGenre(ch) && classify(ch.name) != UnknownGenre
  }

  /** One iteration of the channel loop of `process_json_file`. */
  function Classified(ch: GenreChannel, classify: string -> string): (out: GenreChannel) {
    if SetsGenre(ch, classify) then ch.(genre := Some(Upper(classify(ch.name)))) else ch
  }

  /**
   * A channel that already has a genre is left as it is; otherwise it either stays as
   * it is or gets the upper-cased form of a label other than "Unknown" that the
   * classifier gave for its name, and nothing but the genre changes.
   */
  lemma ClassifiedShape(ch: GenreChannel, apiKey: Option<string>, post: string -> Option<Reply>)
    ensures !NeedsGenre(ch) ==> Classified(ch, Classifier(apiKey, post)) == ch
    ensures Classified(ch, Classifier(apiKey, post)) != ch ==>
              exists g :: && g in ValidGenres && g != UnknownGenre && g == GenreFromAi(ch.name, apiKey, post)
                          && Classified(ch, Classifier(apiKey, post)) == ch.(genre := Some(Upper(g)))
    ensures Classified(ch, Classifier(apiKey, post)).name == ch.name
    ensures Classified(ch, Classifier(apiKey, post)).otherKeys == ch.otherKeys
  {
  }

  /** An upper-cased label is never "Unknown" and never empty, so it is never asked about again. */
  lemma UpperLabelIsSettled(ch: GenreChannel, g: string)
    requires g != ""
    ensures !NeedsGenre(ch.(genre := Some(Upper(g))))
  {
    UpperHasNoLowerCase(g);
    assert Upper(g) != UnknownGenre by {
      if |Upper(g)| == |UnknownGenre| {
        assert !('a' <= Upper(g)[1] <= 'z');
        assert UnknownGenre[1] == 'n';
      }
    }
  }

  /**
   * A channel the backfill has been over is not asked about again by a classifier that
   * answers with valid labels, so a second pass leaves it as it is.
   */
  lemma ClassifiedIdempotent(ch: GenreChannel, classify: string -> string)
    requires classify(ch.name) in ValidGenres
    ensures !SetsGenre(Classified(ch, classify), classify)
    ensures Classified(Classified(ch, classify), classify) == Classified(ch, classify)
  {
    if SetsGenre(ch, classify) {
      UpperLabelIsSettled(ch, classify(ch.name));
    }
  }

  /** Every channel of a list after the loop. */
  function ClassifiedAll(channels: seq<GenreChannel>, classify: string -> string): (out: seq<GenreChannel>)
    ensures |out| == |channels|
  {
    seq(|channels|, i requires 0 <= i < |channels| => Classified(channels[i], classify))
  }

  /** The body of the channel loop: returns the channel as it is afterwards and whether its genre was set. */
  method ClassifyChannel(ch: GenreChannel, classify: string -> string) returns (out: GenreChannel, updated: bool)
    ensures out == Classified(ch, classify)
    ensures updated <==> SetsGenre(ch, classify)
  {
    out, updated := ch, false;
    var currentGenre := ch.genre.GetOr(UnknownGenre);
    if currentGenre == UnknownGenre || currentGenre == "" {
      var newGenre := classify(ch.name);
      if newGenre != UnknownGenre {
        out := ch.(genre := Some(Upper(newGenre)));
        updated := true;
      }
    }
  }

  /**
   * The channel loop of `process_json_file`: channels are updated in place, and the
   * result says whether any channel received a genre.
   */
  method ClassifyChannels(channels: array<GenreChannel>, classify: string -> string) returns (fileUpdated: bool)
    modifies channels
    ensures forall i :: 0 <= i < channels.Length ==> channels[i] == Classified(old(channels[i]), classify)
    ensures fileUpdated <==> exists i :: 0 <= i < channels.Length && SetsGenre(old(channels[i]), classify)
  {
    ghost var loaded := channels[..];
    fileUpdated := false;
    for i := 0 to channels.Length
      invariant forall k :: 0 <= k < i ==> channels[k] == Classified(loaded[k], classify)
      invariant forall k :: i <= k < channels.Length ==> channels[k] == loaded[k]
      invariant fileUpdated <==> exists k :: 0 <= k < i && SetsGenre(loaded[k], classify)
    {
      var out, updated := ClassifyChannel(channels[i], classify);
      channels[i] := out;
      if updated {
        fileUpdated := true;
      }
    }
  }

  /**
   * The loaded JSON document of a category file: a top-level list of channels, an
   * object (with its `"channels"` list when it has that key), or anything else.
   */
  datatype Document =
    | ListDoc(items: seq<GenreChannel>)
    | ObjectDoc(channels: Option<seq<GenreChannel>>, otherKeys: map<string, string>)
    | OtherDoc

  /** The channel list `process_json_file` works on, if the document has one. */
  function ChannelsOf(doc: Document): (channels: Option<seq<GenreChannel>>) {
    match doc
    case ListDoc(items) => Some(items)
    case ObjectDoc(channels, _) => channels
    case OtherDoc => None
  }

  /**
   * `process_json_file` on an already loaded document: returns whether the file is
   * rewritten and, if so, the document written back. A list is written back as a list,
   * an object as `{"channels": ...}` alone.
   */
  method ProcessGenreFile(doc: Document, apiKey: Option<string>, post: string -> Option<Reply>)
    returns (updated: bool, written: Option<Document>)
    ensures ChannelsOf(doc).None? ==> !updated
    ensures updated <==> written.Some?
    ensures updated <==> ChannelsOf(doc).Some? &&
                         exists i :: 0 <= i < |ChannelsOf(doc).value| &&
                                     SetsGenre(ChannelsOf(doc).value[i], Classifier(apiKey, post))
    ensures updated && doc.ListDoc? ==> written == Some(ListDoc(ClassifiedAll(doc.items, Classifier(apiKey, post))))
    ensures updated && doc.ObjectDoc? ==>
              written == Some(ObjectDoc(Some(ClassifiedAll(doc.channels.value, Classifier(apiKey, post))), map[]))
  {
    var isDict := false;
    var channels: seq<GenreChannel>;
    match doc {
      case ListDoc(items) =>
        channels := items;
      case ObjectDoc(cs, _) =>
        if cs.None? {
          return false, None;
        }
        channels := cs.value;
        isDict := true;
      case OtherDoc =>
        return false, None;
    }
    var a := new GenreChannel[|channels|](i requires 0 <= i < |channels| => channels[i]);
    assert a[..] == channels;
    var fileUpdated := ClassifyChannels(a, Classifier(apiKey, post));
    assert a[..] == ClassifiedAll(channels, Classifier(apiKey, post));
    if fileUpdated {
      written := Some(if isDict then ObjectDoc(Some(a[..]), map[]) else ListDoc(a[..]));
      updated := true;
    } else {
      written := None;
      updated := false;
    }
  }

  /** A second run over the rewritten channels with the same classifier rewrites nothing. */
  lemma SecondRunWritesNothing(channels: seq<GenreChannel>, apiKey: Option<string>, post: string -> Option<Reply>)
    ensures forall i :: 0 <= i < |channels| ==>
              !SetsGenre(ClassifiedAll(channels, Classifier(apiKey, post))[i], Classifier(apiKey, post))
    ensures ClassifiedAll(ClassifiedAll(channels, Classifier(apiKey, post)), Classifier(apiKey, post))
            == ClassifiedAll(channels, Classifier(apiKey, post))
  {
    var classify := Classifier(apiKey, post);
    forall i | 0 <= i < |channels|
      ensures !SetsGenre(ClassifiedAll(channels, classify)[i], classify)
      ensures Classified(ClassifiedAll(channels, classify)[i], classify) == ClassifiedAll(channels, classify)[i]
    {
      ClassifiedIdempotent(channels[i], classify);
    }
  }
}
