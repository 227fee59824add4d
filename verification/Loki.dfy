/** Shipping to Loki: a batch of events is grouped into streams by job, action and outcome. */
module Loki {
  import opened Audit
  import opened Binary
  import opened Encoding
  import Texts

  const BAR: Byte := 124

  type Entry = (Bytes, Bytes)
  datatype Stream = Stream(job: Bytes, action: Bytes, outcome: Bytes, values: seq<Entry>)

  /** The key of the two maps: the three labels, joined. */
  function Key(job: Bytes, e: Event): Bytes { job + [BAR] + e.action + [BAR] + e.outcome }

  /** `nanos` turns the time of an event into Unix nanoseconds. */
  function EntryOf(e: Event, nanos: Bytes -> Bytes): Entry { (nanos(e.at), Encode(e)) }

  function EntriesOf(events: seq<Event>, nanos: Bytes -> Bytes): seq<Entry> {
    if events == [] then [] else EntriesOf(events[..|events| - 1], nanos) + [EntryOf(events[|events| - 1], nanos)]
  }

  /** The events with one of the keys, in their order. */
  function WithKeys(job: Bytes, events: seq<Event>, keys: set<Bytes>): seq<Event> {
    if events == [] then []
    else
      var e := events[|events| - 1];
      WithKeys(job, events[..|events| - 1], keys) + if Key(job, e) in keys then [e] else []
  }

  function Group(job: Bytes, events: seq<Event>, key: Bytes): seq<Event> { WithKeys(job, events, {key}) }

  function Keys(job: Bytes, events: seq<Event>): set<Bytes> { set e <- events :: Key(job, e) }

  lemma {:induction false} GroupOf(job: Bytes, events: seq<Event>, key: Bytes)
    ensures forall e :: e in Group(job, events, key) <==> e in events && Key(job, e) == key
    ensures Group(job, events, key) != [] <==> key in Keys(job, events)
  {
    hide Key, Group, Keys;
    if events == [] {
      NothingGrouped(job, key);
    } else {
      var most, e := events[..|events| - 1], events[|events| - 1];
      GroupOf(job, most, key);
      assert events == most + [e];
      GroupOneMore(job, most, e, key);
    }
  }

  lemma NothingGrouped(job: Bytes, key: Bytes)
    ensures Group(job, [], key) == [] && Keys(job, []) == {}
  {
  }

  /** What the stream of a key holds: the labels of the last event with that key, and a line
      for each of them. */
  function StreamOf(job: Bytes, events: seq<Event>, key: Bytes, nanos: Bytes -> Bytes): Stream
    requires Group(job, events, key) != []
  {
    var group := Group(job, events, key);
    Stream(job, group[|group| - 1].action, group[|group| - 1].outcome, EntriesOf(group, nanos))
  }

  /** One stream for each key, in any order. */
  ghost predicate IsPush(job: Bytes, events: seq<Event>, keys: seq<Bytes>, streams: seq<Stream>,
                         nanos: Bytes -> Bytes)
  {
    && |keys| == |streams|
    && (forall i, j :: 0 <= i < j < |keys| ==> keys[i] != keys[j])
    && (forall k :: k in keys <==> k in Keys(job, events))
    && forall i :: 0 <= i < |keys| ==>
      Group(job, events, keys[i]) != [] && streams[i] == StreamOf(job, events, keys[i], nanos)
  }

  type Label = (Bytes, Bytes, Bytes)

  ghost predicate Holds(job: Bytes, events: seq<Event>, key: Bytes, nanos: Bytes -> Bytes,
                        values: seq<Entry>, tag: Label)
  {
    Group(job, events, key) != [] && StreamOf(job, events, key, nanos) == Stream(tag.0, tag.1, tag.2, values)
  }

  ghost predicate Tallied(job: Bytes, events: seq<Event>, nanos: Bytes -> Bytes,
                          grouped: map<Bytes, seq<Entry>>, labels: map<Bytes, Label>) {
    && grouped.Keys == labels.Keys == Keys(job, events)
    && forall k <- grouped :: Holds(job, events, k, nanos, grouped[k], labels[k])
  }

  method Build(job: Bytes, events: seq<Event>, nanos: Bytes -> Bytes)
    returns (ok: bool, streams: seq<Stream>, ghost keys: seq<Bytes>)
    ensures ok <==> forall e <- events :: Encodable(e)
    ensures ok ==> IsPush(job, events, keys, streams, nanos)
  {
    hide Keys, Group, StreamOf, Encodable, EntryOf;
    var grouped: map<Bytes, seq<Entry>> := map[];
    var labels: map<Bytes, Label> := map[];
    TallyNothing(job, nanos);
    for i := 0 to |events|
      invariant Tallied(job, events[..i], nanos, grouped, labels)
      invariant forall e <- events[..i] :: Encodable(e)
    {
      hide Tallied;
      var e := events[i];
      var key := Key(job, e);
      if !Encodable(e) {
        assert e in events;
        return false, [], [];
      }
      assert events[..i + 1] == events[..i] + [e];
      TallyOneMore(job, events[..i], e, nanos, grouped, labels);
      labels := labels[key := (job, e.action, e.outcome)];
      grouped := grouped[key := (if key in grouped then grouped[key] else []) + [EntryOf(e, nanos)]];
    }
    assert events[..|events|] == events;
    ok := true;
    streams, keys := Assemble(grouped, labels);
  }

  function StreamFrom(grouped: map<Bytes, seq<Entry>>, labels: map<Bytes, Label>, key: Bytes): Stream
    requires key in grouped && grouped.Keys == labels.Keys
  {
    Stream(labels[key].0, labels[key].1, labels[key].2, grouped[key])
  }

  /** The second loop: one stream for each key, in the order in which the map gives them. */
  method Assemble(grouped: map<Bytes, seq<Entry>>, labels: map<Bytes, Label>)
    returns (streams: seq<Stream>, ghost keys: seq<Bytes>)
    requires grouped.Keys == labels.Keys
    ensures |keys| == |streams| && (forall k :: k in keys <==> k in grouped)
    ensures forall i, j :: 0 <= i < j < |keys| ==> keys[i] != keys[j]
    ensures forall i :: 0 <= i < |keys| ==> keys[i] in grouped && streams[i] == StreamFrom(grouped, labels, keys[i])
  {
    streams, keys := [], [];
    var left := grouped.Keys;
    while left != {}
      invariant left <= grouped.Keys && |keys| == |streams|
      invariant forall i, j :: 0 <= i < j < |keys| ==> keys[i] != keys[j]
      invariant forall k :: k in keys <==> k in grouped.Keys - left
      invariant forall i :: 0 <= i < |keys| ==> keys[i] in grouped && streams[i] == StreamFrom(grouped, labels, keys[i])
      decreases |left|
    {
      var key :| key in left;
      assert key !in keys;
      streams := streams + [StreamFrom(grouped, labels, key)];
      keys := keys + [key];
      left := left - {key};
    }
  }

  lemma TallyNothing(job: Bytes, nanos: Bytes -> Bytes)
    ensures Tallied(job, [], nanos, map[], map[])
  {
  }

  lemma GroupOneMore(job: Bytes, events: seq<Event>, e: Event, k: Bytes)
    ensures Group(job, events + [e], k) == Group(job, events, k) + if Key(job, e) == k then [e] else []
    ensures Keys(job, events + [e]) == Keys(job, events) + {Key(job, e)}
  {
    assert (events + [e])[..|events|] == events;
  }

  lemma HoldsStill(job: Bytes, events: seq<Event>, e: Event, k: Bytes, nanos: Bytes -> Bytes,
                   values: seq<Entry>, tag: Label)
    requires Holds(job, events, k, nanos, values, tag) && Key(job, e) != k
    ensures Holds(job, events + [e], k, nanos, values, tag)
  {
    GroupOneMore(job, events, e, k);
    hide Group;
    assert Group(job, events, k) + [] == Group(job, events, k);
  }

  lemma HoldsOneMore(job: Bytes, events: seq<Event>, e: Event, nanos: Bytes -> Bytes, values: seq<Entry>, tag: Label)
    requires Key(job, e) in Keys(job, events) ==> Holds(job, events, Key(job, e), nanos, values, tag)
    requires Key(job, e) !in Keys(job, events) ==> values == []
    ensures Holds(job, events + [e], Key(job, e), nanos, values + [EntryOf(e, nanos)], (job, e.action, e.outcome))
  {
    var key := Key(job, e);
    GroupOneMore(job, events, e, key);
    GroupOf(job, events, key);
    var group := Group(job, events, key);
    assert values == EntriesOf(group, nanos);
    var more := Group(job, events + [e], key);
    assert more == group + [e];
    assert more[..|more| - 1] == group;
    assert EntriesOf(more, nanos) == values + [EntryOf(e, nanos)];
  }

  lemma TallyOneMore(job: Bytes, events: seq<Event>, e: Event, nanos: Bytes -> Bytes,
                     grouped: map<Bytes, seq<Entry>>, labels: map<Bytes, Label>)
    requires Tallied(job, events, nanos, grouped, labels)
    ensures var key := Key(job, e);
      Tallied(job, events + [e], nanos,
        grouped[key := (if key in grouped then grouped[key] else []) + [EntryOf(e, nanos)]],
        labels[key := (job, e.action, e.outcome)])
  {
    hide Holds, EntryOf, Group;
    var key := Key(job, e);
    GroupOneMore(job, events, e, key);
    hide Key, Keys;
    var values := if key in grouped then grouped[key] else [];
    HoldsOneMore(job, events, e, nanos, values, if key in labels then labels[key] else (job, [], []));
    forall k | k in grouped && k != key ensures Holds(job, events + [e], k, nanos, grouped[k], labels[k]) {
      HoldsStill(job, events, e, k, nanos, grouped[k], labels[k]);
    }
  }

  // The partition -------------------------------------------------------------------------------

  function Flatten(groups: seq<seq<Event>>): seq<Event> {
    if groups == [] then [] else Flatten(groups[..|groups| - 1]) + groups[|groups| - 1]
  }

  function Groups(job: Bytes, events: seq<Event>, keys: seq<Bytes>): seq<seq<Event>> {
    if keys == [] then []
    else Groups(job, events, keys[..|keys| - 1]) + [Group(job, events, keys[|keys| - 1])]
  }

  lemma {:induction false} WithOneMoreKey(job: Bytes, events: seq<Event>, keys: set<Bytes>, key: Bytes)
    requires key !in keys
    ensures (multiset(WithKeys(job, events, keys + {key})) ==
      multiset(WithKeys(job, events, keys)) + multiset(Group(job, events, key)))
  {
    if events != [] {
      WithOneMoreKey(job, events[..|events| - 1], keys, key);
    }
  }

  lemma {:induction false} WithAllKeys(job: Bytes, events: seq<Event>, keys: set<Bytes>)
    requires forall e <- events :: Key(job, e) in keys
    ensures WithKeys(job, events, keys) == events
  {
    if events != [] {
      var most, e := events[..|events| - 1], events[|events| - 1];
      assert events == most + [e];
      WithAllKeys(job, most, keys);
    }
  }

  lemma {:induction false} FlattenedGroups(job: Bytes, events: seq<Event>, keys: seq<Bytes>)
    requires forall i, j :: 0 <= i < j < |keys| ==> keys[i] != keys[j]
    ensures multiset(Flatten(Groups(job, events, keys))) == multiset(WithKeys(job, events, (set k <- keys)))
  {
    hide WithKeys, Group, Groups, Flatten;
    if keys == [] {
      NoKeys(job, events);
      NoGroups(job, events);
      assert (set k <- keys) == {};
    } else {
      var most, key := keys[..|keys| - 1], keys[|keys| - 1];
      FlattenedGroups(job, events, most);
      assert keys == most + [key];
      assert (set k <- keys) == (set k <- most) + {key};
      WithOneMoreKey(job, events, (set k <- most), key);
      LastGroup(job, events, most, key);
    }
  }

  lemma NoGroups(job: Bytes, events: seq<Event>)
    ensures Flatten(Groups(job, events, [])) == []
  {
  }

  lemma LastGroup(job: Bytes, events: seq<Event>, keys: seq<Bytes>, key: Bytes)
    ensures (multiset(Flatten(Groups(job, events, keys + [key]))) ==
      multiset(Flatten(Groups(job, events, keys))) + multiset(Group(job, events, key)))
  {
    hide Group;
    var groups, all := Groups(job, events, keys), keys + [key];
    assert all[..|keys|] == keys;
    assert Groups(job, events, all) == groups + [Group(job, events, key)];
    hide Groups;
    var more := groups + [Group(job, events, key)];
    assert more[..|groups|] == groups;
    assert Flatten(more) == Flatten(groups) + Group(job, events, key);
  }

  lemma {:induction false} NoKeys(job: Bytes, events: seq<Event>)
    ensures WithKeys(job, events, {}) == []
  {
    if events != [] { NoKeys(job, events[..|events| - 1]); }
  }

  /** No two events of the batch have different labels and the same key. */
  ghost predicate NoClash(job: Bytes, events: seq<Event>) {
    forall d <- events, e <- events :: Key(job, d) == Key(job, e) ==> d.action == e.action && d.outcome == e.outcome
  }

  /** Every stream is told apart by its labels, and holds in order the lines of all the
      events that have them. */
  ghost predicate IsPartition(events: seq<Event>, groups: seq<seq<Event>>, streams: seq<Stream>,
                              nanos: Bytes -> Bytes)
  {
    && |groups| == |streams|
    && multiset(Flatten(groups)) == multiset(events)
    && (forall i, j :: 0 <= i < j < |streams| ==> !SameLabels(streams[i], streams[j]))
    && forall i :: 0 <= i < |streams| ==>
      && streams[i].values == EntriesOf(groups[i], nanos)
      && groups[i] == Labelled(events, streams[i].action, streams[i].outcome)
  }

  predicate SameLabels(a: Stream, b: Stream) { a.job == b.job && a.action == b.action && a.outcome == b.outcome }

  function Labelled(events: seq<Event>, action: Bytes, outcome: Bytes): seq<Event> {
    if events == [] then []
    else
      var e := events[|events| - 1];
      Labelled(events[..|events| - 1], action, outcome) + if e.action == action && e.outcome == outcome then [e] else []
  }

  lemma {:induction false} GroupIsLabelled(job: Bytes, events: seq<Event>, e: Event)
    requires forall d <- events :: Key(job, d) == Key(job, e) ==> d.action == e.action && d.outcome == e.outcome
    ensures Group(job, events, Key(job, e)) == Labelled(events, e.action, e.outcome)
  {
    if events != [] {
      var most, last := events[..|events| - 1], events[|events| - 1];
      assert events == most + [last];
      GroupIsLabelled(job, most, e);
    }
  }

  lemma {:induction false} GroupsAt(job: Bytes, events: seq<Event>, keys: seq<Bytes>)
    ensures |Groups(job, events, keys)| == |keys|
    ensures forall i :: 0 <= i < |keys| ==> Groups(job, events, keys)[i] == Group(job, events, keys[i])
  {
    if keys != [] { GroupsAt(job, events, keys[..|keys| - 1]); }
  }

  lemma {:induction false} LabelledHas(events: seq<Event>, action: Bytes, outcome: Bytes)
    ensures forall e <- Labelled(events, action, outcome) :: e.action == action && e.outcome == outcome
  {
    if events != [] { LabelledHas(events[..|events| - 1], action, outcome); }
  }

  /** Grouping is a partition of the batch by its labels exactly if no two of its events have
      the same key and different labels. */
  lemma PartitionIffNoClash(job: Bytes, events: seq<Event>, keys: seq<Bytes>, streams: seq<Stream>,
                            nanos: Bytes -> Bytes)
    requires IsPush(job, events, keys, streams, nanos)
    ensures NoClash(job, events) <==> IsPartition(events, Groups(job, events, keys), streams, nanos)
  {
    hide *;
    if NoClash(job, events) {
      Partitioned(job, events, keys, streams, nanos);
    }
    if IsPartition(events, Groups(job, events, keys), streams, nanos) {
      PartitionHasNoClash(job, events, keys, streams, nanos);
    }
  }

  lemma PartitionHasNoClash(job: Bytes, events: seq<Event>, keys: seq<Bytes>, streams: seq<Stream>,
                            nanos: Bytes -> Bytes)
    requires IsPush(job, events, keys, streams, nanos) && IsPartition(events, Groups(job, events, keys), streams, nanos)
    ensures NoClash(job, events)
  {
    hide IsPush, IsPartition, Groups, Key;
    forall d, e | d in events && e in events && Key(job, d) == Key(job, e)
      ensures d.action == e.action && d.outcome == e.outcome
    {
      SameStreamSameLabels(job, events, keys, streams, nanos, d, e);
    }
  }

  lemma SameStreamSameLabels(job: Bytes, events: seq<Event>, keys: seq<Bytes>, streams: seq<Stream>,
                             nanos: Bytes -> Bytes, d: Event, e: Event)
    requires IsPush(job, events, keys, streams, nanos) && IsPartition(events, Groups(job, events, keys), streams, nanos)
    requires d in events && e in events && Key(job, d) == Key(job, e)
    ensures d.action == e.action && d.outcome == e.outcome
  {
    hide Flatten, WithKeys, EntriesOf, StreamOf, Labelled, Groups;
    var k := Key(job, d);
    assert k in Keys(job, events);
    hide Key, Keys;
    var i :| 0 <= i < |keys| && keys[i] == k;
    GroupsAt(job, events, keys);
    GroupOf(job, events, k);
    LabelledHas(events, streams[i].action, streams[i].outcome);
  }

  lemma Partitioned(job: Bytes, events: seq<Event>, keys: seq<Bytes>, streams: seq<Stream>, nanos: Bytes -> Bytes)
    requires IsPush(job, events, keys, streams, nanos) && NoClash(job, events)
    ensures IsPartition(events, Groups(job, events, keys), streams, nanos)
  {
    hide Key, WithKeys, EntriesOf, Labelled, Flatten, Groups;
    GroupsAt(job, events, keys);
    FlattenedGroups(job, events, keys);
    WithAllKeys(job, events, (set k <- keys));
    forall i | 0 <= i < |keys|
      ensures Key(job, LastIn(job, events, keys[i])) == keys[i] && LastIn(job, events, keys[i]) in events
      ensures streams[i].values == EntriesOf(Group(job, events, keys[i]), nanos)
      ensures Group(job, events, keys[i]) == Labelled(events, streams[i].action, streams[i].outcome)
    {
      GroupOf(job, events, keys[i]);
      GroupIsLabelled(job, events, LastIn(job, events, keys[i]));
    }
    forall i, j | 0 <= i < j < |streams| ensures !SameLabels(streams[i], streams[j]) {
      SameLabelsSameKey(job, LastIn(job, events, keys[i]), LastIn(job, events, keys[j]));
    }
  }

  function LastIn(job: Bytes, events: seq<Event>, key: Bytes): Event
    requires Group(job, events, key) != []
  {
    var group := Group(job, events, key);
    group[|group| - 1]
  }

  lemma SameLabelsSameKey(job: Bytes, d: Event, e: Event)
    ensures d.action == e.action && d.outcome == e.outcome ==> Key(job, d) == Key(job, e)
  {
  }

  /** Actions without a bar never clash, whatever the job and the outcomes are. */
  lemma PlainActionsNeverClash(job: Bytes, events: seq<Event>)
    requires forall e <- events :: BAR !in e.action
    ensures NoClash(job, events)
  {
    forall d, e | d in events && e in events && Key(job, d) == Key(job, e)
      ensures d.action == e.action && d.outcome == e.outcome
    {
      assert Key(job, d) == job + [BAR] + (d.action + [BAR] + d.outcome);
      assert Key(job, e) == job + [BAR] + (e.action + [BAR] + e.outcome);
      var n := |job| + 1;
      assert Key(job, d)[n..] == d.action + [BAR] + d.outcome && Key(job, e)[n..] == e.action + [BAR] + e.outcome;
      Texts.CutUnique(d.action, e.action, BAR, d.outcome, e.outcome);
    }
  }

  /** With a bar in an action two events can end up in one stream, under the labels of the
      second. */
  lemma BarsClash(job: Bytes, e: Event, a: Bytes, b: Bytes, c: Bytes)
    ensures var d, f := e.(action := a + [BAR] + b, outcome := c), e.(action := a, outcome := b + [BAR] + c);
      !NoClash(job, [d, f])
  {
    var d, f := e.(action := a + [BAR] + b, outcome := c), e.(action := a, outcome := b + [BAR] + c);
    assert job + [BAR] + (a + [BAR] + b) + [BAR] + c == job + [BAR] + a + [BAR] + (b + [BAR] + c);
    assert |d.action| != |f.action|;
    assert d in [d, f] && f in [d, f];
  }
}
