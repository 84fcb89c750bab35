/** The string keys of the log cache (packages/nouns-webapp/src/utils/logParsing.ts). */
module LogKeys {
  import opened Wrappers

  /** A topic position: any (null), one topic, or one of several. */
  datatype Topic = Null | One(topic: string) | Many(topics: seq<string>)

  datatype Filter = Filter(address: Option<string>, topics: Option<seq<Topic>>, fromBlock: Option<nat>)

  /** `parts.join(sep)` */
  function Join(parts: seq<string>, sep: char): string {
    if parts == [] then ""
    else if |parts| == 1 then parts[0]
    else parts[0] + [sep] + Join(parts[1..], sep)
  }

  /** `s.split(sep)` */
  function Split(s: string, sep: char): (parts: seq<string>)
    ensures parts != []
    ensures forall p :: p in parts ==> sep !in p
  {
    if s == "" then [""]
    else
      var rest := Split(s[1..], sep);
      if s[0] == sep then [""] + rest else [[s[0]] + rest[0]] + rest[1..]
  }

  lemma {:induction false} JoinSplit(s: string, sep: char)
    ensures Join(Split(s, sep), sep) == s
  {
    if s != "" {
      JoinSplit(s[1..], sep);
      var rest, parts := Split(s[1..], sep), Split(s, sep);
      if s[0] == sep {
        assert parts[1..] == rest;
      } else {
        assert parts[1..] == rest[1..];
      }
    }
  }

  lemma {:induction false} SplitPrefix(s: string, t: string, sep: char)
    requires sep !in s
    ensures Split(s + [sep] + t, sep) == [s] + Split(t, sep)
    ensures Split(s, sep) == [s]
  {
    if s == "" {
      assert ("" + [sep] + t)[1..] == t;
    } else {
      SplitPrefix(s[1..], t, sep);
      var all := s + [sep] + t;
      assert all[1..] == s[1..] + [sep] + t;
      assert s == [s[0]] + s[1..];
    }
  }

  lemma {:induction false} SplitJoin(parts: seq<string>, sep: char)
    requires parts != [] && forall p :: p in parts ==> sep !in p
    ensures Split(Join(parts, sep), sep) == parts
  {
    SplitPrefix(parts[0], Join(parts[1..], sep), sep);
    if |parts| > 1 {
      SplitJoin(parts[1..], sep);
    } else {
      assert parts == [parts[0]];
    }
  }

  /** An absent or empty topic is written as the character 0. */
  function TopicKey(t: Topic): string {
    match t
    case Null => "\0"
    case One(topic) => if topic == "" then "\0" else topic
    case Many(topics) => Join(topics, ';')
  }

  function TopicKeys(ts: seq<Topic>): (parts: seq<string>)
    ensures |parts| == |ts| && forall i :: 0 <= i < |ts| ==> parts[i] == TopicKey(ts[i])
  {
    seq(|ts|, i requires 0 <= i < |ts| => TopicKey(ts[i]))
  }

  function FilterToKey(f: Filter): string {
    f.address.GetOr("") + ":" + Join(TopicKeys(f.topics.GetOr([])), '-')
  }

  function ParseTopic(s: string): Topic {
    var parts := Split(s, ';');
    if |parts| == 1 then One(parts[0]) else Many(parts)
  }

  function ParseTopics(parts: seq<string>): (ts: seq<Topic>)
    ensures |ts| == |parts| && forall i :: 0 <= i < |parts| ==> ts[i] == ParseTopic(parts[i])
  {
    seq(|parts|, i requires 0 <= i < |parts| => ParseTopic(parts[i]))
  }

  /** keyToFilter; None where it throws, because the key has no colon. Pieces after a second colon
      are dropped, and so is the filter's first block, which no key records. */
  function KeyToFilter(key: string): Option<Filter> {
    var pcs := Split(key, ':');
    if |pcs| < 2 then None
    else Some(Filter(if pcs[0] == "" then None else Some(pcs[0]), Some(ParseTopics(Split(pcs[1], '-'))), None))
  }

  /** What a piece of a key becomes when it is parsed and printed again. */
  function Reprinted(piece: string): string {
    if piece == "" then "\0" else piece
  }

  lemma ReprintTopic(piece: string)
    ensures TopicKey(ParseTopic(piece)) == Reprinted(piece)
  {
    JoinSplit(piece, ';');
  }

  /** No colon but the first, and no empty topic. */
  predicate Stable(key: string) {
    var pcs := Split(key, ':');
    |pcs| == 2 && forall piece :: piece in Split(pcs[1], '-') ==> piece != ""
  }

  function ReprintAll(parts: seq<string>): (r: seq<string>)
    ensures |r| == |parts| && forall i :: 0 <= i < |parts| ==> r[i] == Reprinted(parts[i])
  {
    seq(|parts|, i requires 0 <= i < |parts| => Reprinted(parts[i]))
  }

  lemma Reprint(key: string)
    requires KeyToFilter(key).Some?
    ensures var pcs := Split(key, ':');
      FilterToKey(KeyToFilter(key).value) == pcs[0] + ":" + Join(ReprintAll(Split(pcs[1], '-')), '-')
  {
    var parts := Split(Split(key, ':')[1], '-');
    forall i | 0 <= i < |parts| ensures TopicKeys(ParseTopics(parts))[i] == ReprintAll(parts)[i] {
      ReprintTopic(parts[i]);
    }
    assert TopicKeys(ParseTopics(parts)) == ReprintAll(parts);
  }

  lemma {:induction false} NotInSplit(s: string, sep: char, c: char)
    requires c !in s
    ensures forall p :: p in Split(s, sep) ==> c !in p
  {
    if s != "" {
      NotInSplit(s[1..], sep, c);
      var rest := Split(s[1..], sep);
      assert c !in rest[0];
    }
  }

  lemma {:induction false} NotInJoin(parts: seq<string>, sep: char, c: char)
    requires c != sep && forall p :: p in parts ==> c !in p
    ensures c !in Join(parts, sep)
  {
    if |parts| > 1 {
      NotInJoin(parts[1..], sep, c);
    }
  }

  lemma StableReprints(key: string)
    requires Stable(key)
    ensures FilterToKey(KeyToFilter(key).value) == key
  {
    var pcs := Split(key, ':');
    var parts := Split(pcs[1], '-');
    Reprint(key);
    forall i | 0 <= i < |parts| ensures Reprinted(parts[i]) == parts[i] {
      assert parts[i] in parts;
    }
    assert ReprintAll(parts) == parts;
    JoinSplit(pcs[1], '-');
    JoinSplit(key, ':');
    assert pcs[1..][0] == pcs[1];
  }

  /** A reprinted key has one colon and no empty topic. */
  lemma ReprintIsStable(key: string)
    requires KeyToFilter(key).Some?
    ensures Stable(FilterToKey(KeyToFilter(key).value))
  {
    var pcs := Split(key, ':');
    var parts := Split(pcs[1], '-');
    var again := Join(ReprintAll(parts), '-');
    Reprint(key);
    assert ':' !in pcs[1] && ':' !in pcs[0];
    NotInSplit(pcs[1], '-', ':');
    forall p | p in ReprintAll(parts) ensures ':' !in p && '-' !in p && p != "" {
      var i :| 0 <= i < |parts| && p == Reprinted(parts[i]);
      assert parts[i] in parts;
    }
    NotInJoin(ReprintAll(parts), '-', ':');
    SplitPrefix(pcs[0], again, ':');
    SplitPrefix(again, "", ':');
    SplitJoin(ReprintAll(parts), '-');
  }

  /** Parsing a key and printing it again gives the same key exactly when it is stable. */
  lemma KeyRoundTrip(key: string)
    requires KeyToFilter(key).Some?
    ensures FilterToKey(KeyToFilter(key).value) == key <==> Stable(key)
  {
    ReprintIsStable(key);
    if Stable(key) {
      StableReprints(key);
    }
  }

  /** Every filter prints to a key that parses. */
  lemma KeysParse(f: Filter)
    ensures KeyToFilter(FilterToKey(f)).Some?
  {
    var address, rest := f.address.GetOr(""), Join(TopicKeys(f.topics.GetOr([])), '-');
    ColonSplits(address, rest);
  }

  lemma {:induction false} ColonSplits(s: string, t: string)
    ensures |Split(s + ":" + t, ':')| >= 2
  {
    var all := s + ":" + t;
    if s == "" {
      assert all[1..] == t;
    } else {
      assert all[1..] == s[1..] + ":" + t;
      ColonSplits(s[1..], t);
    }
  }

  /** A topic that is not empty as a key and has no separators inside its pieces. */
  ghost predicate CleanTopic(t: Topic) {
    match t
    case Null => true
    case One(topic) => ':' !in topic && '-' !in topic && ';' !in topic
    case Many(topics) =>
      && topics != [] && Join(topics, ';') != ""
      && forall p :: p in topics ==> ':' !in p && '-' !in p && ';' !in p
  }

  /** At least one topic, and only clean pieces. */
  ghost predicate Clean(f: Filter) {
    && ':' !in f.address.GetOr("")
    && f.topics.Some? && f.topics.value != []
    && forall i :: 0 <= i < |f.topics.value| ==> CleanTopic(f.topics.value[i])
  }

  /** A topic that its key brings back: not a wildcard, not empty, not a list of one. */
  predicate Recoverable(t: Topic) {
    match t
    case Null => false
    case One(topic) => topic != ""
    case Many(topics) => |topics| >= 2
  }

  lemma CleanTopicKey(t: Topic)
    requires CleanTopic(t)
    ensures ':' !in TopicKey(t) && '-' !in TopicKey(t) && TopicKey(t) != ""
    ensures ParseTopic(TopicKey(t)) == t <==> Recoverable(t)
  {
    match t
    case Null =>
    case One(topic) =>
      SplitPrefix(TopicKey(t), "", ';');
    case Many(topics) =>
      NotInJoin(topics, ';', ':');
      NotInJoin(topics, ';', '-');
      SplitJoin(topics, ';');
  }

  lemma CleanKeySplits(f: Filter)
    requires Clean(f)
    ensures Split(FilterToKey(f), ':') == [f.address.GetOr(""), Join(TopicKeys(f.topics.value), '-')]
    ensures Split(Join(TopicKeys(f.topics.value), '-'), '-') == TopicKeys(f.topics.value)
    ensures forall piece :: piece in TopicKeys(f.topics.value) ==> piece != ""
  {
    var keys := TopicKeys(f.topics.value);
    forall i | 0 <= i < |keys| ensures ':' !in keys[i] && '-' !in keys[i] && keys[i] != "" {
      CleanTopicKey(f.topics.value[i]);
    }
    NotInJoin(keys, '-', ':');
    SplitJoin(keys, '-');
    SplitPrefix(f.address.GetOr(""), Join(keys, '-'), ':');
    SplitPrefix(Join(keys, '-'), "", ':');
  }

  /** The keys of clean filters are stable: `filterToKey(keyToFilter(filterToKey(f)))` is `filterToKey(f)`. */
  lemma CleanIsStable(f: Filter)
    requires Clean(f)
    ensures KeyToFilter(FilterToKey(f)).Some? && Stable(FilterToKey(f))
    ensures FilterToKey(KeyToFilter(FilterToKey(f)).value) == FilterToKey(f)
  {
    CleanKeySplits(f);
    KeyRoundTrip(FilterToKey(f));
  }

  /** The key of a clean filter brings the filter itself back exactly when it has no first block, no
      empty address, no wildcard or empty topic, and no list of one topic. */
  lemma FilterRoundTrip(f: Filter)
    requires Clean(f)
    ensures KeyToFilter(FilterToKey(f)) == Some(f) <==>
      && f.fromBlock.None? && f.address != Some("")
      && forall i :: 0 <= i < |f.topics.value| ==> Recoverable(f.topics.value[i])
  {
    CleanKeySplits(f);
    var ts, keys := f.topics.value, TopicKeys(f.topics.value);
    forall i | 0 <= i < |ts| ensures ParseTopics(keys)[i] == ts[i] <==> Recoverable(ts[i]) {
      CleanTopicKey(ts[i]);
    }
    assert ParseTopics(keys) == ts <==> forall i :: 0 <= i < |ts| ==> Recoverable(ts[i]);
  }

  /** The layout of a key: the address, a colon, and the topics with their alternatives. */
  lemma KeyExample()
    ensures FilterToKey(Filter(Some("a"), Some([One("b"), Many(["c", "d"]), Null]), Some(7))) == "a:b-c;d-\0"
  {
    var topics := [One("b"), Many(["c", "d"]), Null];
    assert ["c", "d"][1..] == ["d"];
    assert Join(["c", "d"], ';') == "c;d";
    assert TopicKeys(topics) == ["b", "c;d", "\0"];
    assert ["b", "c;d", "\0"][1..] == ["c;d", "\0"] && ["c;d", "\0"][1..] == ["\0"];
    assert Join(["\0"], '-') == "\0";
    assert Join(["c;d", "\0"], '-') == "c;d-\0";
  }

  /** A filter without topics has an unstable key. */
  lemma UnstableKeyExample()
    ensures var key := FilterToKey(Filter(Some("a"), None, None));
      KeyToFilter(key).Some? && FilterToKey(KeyToFilter(key).value) != key
  {
    var key := FilterToKey(Filter(Some("a"), None, None));
    SplitPrefix("a", "", ':');
    assert key == "a" + ":" + "";
    assert Split("", '-') == [""];
    KeyRoundTrip(key);
  }
}
