/**
 * `HistoryView.generateHistoryContent`: the change history of the ACs, one
 * event per recorded (level, date), sorted by date or grouped by AC, rendered
 * as a sequence of nodes (an empty-state message, separators and items).
 * Parsing a date, and formatting it as a day and a time, are parameters.
 */
module History {
  import opened Wrappers
  import Text
  import KeyOrder

  /** An entry of `acIndex`: the fields `generateHistoryContent` reads. */
  datatype Entry = Entry(code: string, libelle: string, dates: map<int, string>)

  /** One event: an AC reaching a level, at `date` (milliseconds) given as `dateISO`. */
  datatype Event = Event(acCode: string, libelle: string, level: int, date: int, dateISO: string)

  /** A child of the fragment the function returns. */
  datatype Node =
    | EmptyState
    | Separator
    | Item(acCode: string, libelle: string, level: int, dateStr: string, timeStr: string,
           levelLabel: Option<string>)

  datatype Mode = ByDate | ByAc

  /** Only the string `"ac"` groups by AC; every other mode sorts by date. */
  function ModeOf(sortMode: string): (m: Mode)
    ensures m == ByAc <==> sortMode == "ac"
  {
    if sortMode == "ac" then ByAc else ByDate
  }

  // ------------------------------------------------------------ collection

  /** The event for `level` of `e`; `timeOf` is the time `new Date` gives a stored date. */
  function EventAt(e: Entry, level: int, timeOf: string -> int): Event
    requires level in e.dates
  {
    Event(e.code, e.libelle, level, timeOf(e.dates[level]), e.dates[level])
  }

  /** The events of one entry, in the order `for…in` visits its integer keys. */
  function EventsOf(e: Entry, timeOf: string -> int): (r: seq<Event>)
    ensures |r| == |e.dates|
  {
    var keys := KeyOrder.Ascending(e.dates.Keys);
    seq(|keys|, i requires 0 <= i < |keys| => EventAt(e, keys[i], timeOf))
  }

  /** An entry's events are the events of its recorded levels. */
  lemma EventsOfMembers(e: Entry, timeOf: string -> int, ev: Event)
    ensures ev in EventsOf(e, timeOf) <==> exists level :: level in e.dates && ev == EventAt(e, level, timeOf)
  {
    var keys := KeyOrder.Ascending(e.dates.Keys);
    var r := EventsOf(e, timeOf);
    if ev in r {
      var i :| 0 <= i < |r| && r[i] == ev;
      assert keys[i] in e.dates && ev == EventAt(e, keys[i], timeOf);
    }
    if exists level :: level in e.dates && ev == EventAt(e, level, timeOf) {
      var level :| level in e.dates && ev == EventAt(e, level, timeOf);
      var i :| 0 <= i < |keys| && keys[i] == level;
      assert r[i] == ev;
    }
  }

  /** The events of every entry of `index`, entry by entry. */
  function Collected(index: seq<Entry>, timeOf: string -> int): seq<Event> {
    if index == [] then []
    else Collected(index[..|index| - 1], timeOf) + EventsOf(index[|index| - 1], timeOf)
  }

  /** The number of dates recorded across `index`. */
  function TotalDates(index: seq<Entry>): nat {
    if index == [] then 0 else TotalDates(index[..|index| - 1]) + |index[|index| - 1].dates|
  }

  lemma CollectedSnoc(index: seq<Entry>, timeOf: string -> int, n: nat)
    requires n < |index|
    ensures Collected(index[..n + 1], timeOf) == Collected(index[..n], timeOf) + EventsOf(index[n], timeOf)
  {
    assert index[..n + 1][..n] == index[..n];
  }

  lemma EventsOfAt(e: Entry, timeOf: string -> int, k: nat)
    requires k < |e.dates|
    ensures var keys := KeyOrder.Ascending(e.dates.Keys);
            k < |keys| && keys[k] in e.dates && EventsOf(e, timeOf)[k] == EventAt(e, keys[k], timeOf)
  {
  }

  lemma PushStep(before: seq<Event>, own: seq<Event>, k: nat, events: seq<Event>)
    requires k < |own| && events == before + own[..k]
    ensures events + [own[k]] == before + own[..k + 1]
  {
    assert own[..k + 1] == own[..k] + [own[k]];
  }

  /** The first loop of `generateHistoryContent`: one event per AC and level. */
  method CollectEvents(acIndex: seq<Entry>, timeOf: string -> int) returns (events: seq<Event>)
    ensures events == Collected(acIndex, timeOf)
  {
    events := [];
    for n := 0 to |acIndex|
      invariant events == Collected(acIndex[..n], timeOf)
    {
      var ac := acIndex[n];
      ghost var own := EventsOf(ac, timeOf);
      ghost var before := events;
      if |ac.dates| > 0 {
        var keys := KeyOrder.Ascending(ac.dates.Keys);
        for k := 0 to |keys|
          invariant events == before + own[..k]
        {
          var level := keys[k];
          EventsOfAt(ac, timeOf, k);
          PushStep(before, own, k, events);
          events := events + [Event(ac.code, ac.libelle, level, timeOf(ac.dates[level]), ac.dates[level])];
        }
        assert own[..|keys|] == own;
      } else {
        assert own == [];
      }
      CollectedSnoc(acIndex, timeOf, n);
    }
    assert acIndex[..|acIndex|] == acIndex;
  }

  /** An event recorded for the entry at `n`. */
  predicate RecordedAt(index: seq<Entry>, timeOf: string -> int, ev: Event, n: int) {
    0 <= n < |index| && exists level :: level in index[n].dates && ev == EventAt(index[n], level, timeOf)
  }

  lemma RecordedInPrefix(index: seq<Entry>, timeOf: string -> int, ev: Event, n: int, m: nat)
    requires m <= |index| && n < m
    ensures RecordedAt(index[..m], timeOf, ev, n) <==> RecordedAt(index, timeOf, ev, n)
  {
    if 0 <= n {
      assert index[..m][n] == index[n];
    }
  }

  lemma {:induction false} CollectedRecorded(index: seq<Entry>, timeOf: string -> int, ev: Event)
    requires ev in Collected(index, timeOf)
    ensures exists n :: RecordedAt(index, timeOf, ev, n)
  {
    var last := |index| - 1;
    var init := index[..last];
    if ev in Collected(init, timeOf) {
      CollectedRecorded(init, timeOf, ev);
      var n :| RecordedAt(init, timeOf, ev, n);
      RecordedInPrefix(index, timeOf, ev, n, last);
    } else {
      EventsOfMembers(index[last], timeOf, ev);
      assert RecordedAt(index, timeOf, ev, last);
    }
  }

  lemma {:induction false} RecordedCollected(index: seq<Entry>, timeOf: string -> int, ev: Event, n: int)
    requires RecordedAt(index, timeOf, ev, n)
    ensures ev in Collected(index, timeOf)
  {
    var last := |index| - 1;
    var init := index[..last];
    if n < last {
      RecordedInPrefix(index, timeOf, ev, n, last);
      RecordedCollected(init, timeOf, ev, n);
    } else {
      EventsOfMembers(index[last], timeOf, ev);
    }
  }

  /** Every collected event is the event of one recorded date, and every recorded date has one. */
  lemma CollectedMembers(index: seq<Entry>, timeOf: string -> int, ev: Event)
    ensures ev in Collected(index, timeOf) <==> exists n :: RecordedAt(index, timeOf, ev, n)
  {
    if ev in Collected(index, timeOf) {
      CollectedRecorded(index, timeOf, ev);
    }
    if exists n :: RecordedAt(index, timeOf, ev, n) {
      var n :| RecordedAt(index, timeOf, ev, n);
      RecordedCollected(index, timeOf, ev, n);
    }
  }

  /** There are as many events as recorded dates. */
  lemma {:induction false} CollectedCount(index: seq<Entry>, timeOf: string -> int)
    ensures |Collected(index, timeOf)| == TotalDates(index)
  {
    if index != [] {
      CollectedCount(index[..|index| - 1], timeOf);
    }
  }

  // --------------------------------------------------------------- sorting

  /** `x.localeCompare(y) < 0`, with the order of character codes. */
  predicate CodeBefore(x: string, y: string) {
    Text.LessEq(x, y) && x != y
  }

  /** The comparator of `mode` puts `a` strictly before `b`. */
  predicate Before(mode: Mode, a: Event, b: Event): (r: bool)
    ensures a == b ==> !r
    ensures mode == ByDate ==> (r <==> a.date > b.date)
    ensures a.acCode == b.acCode ==> (r <==> a.date > b.date)
  {
    match mode
    case ByDate => b.date - a.date < 0
    case ByAc => if a.acCode != b.acCode then CodeBefore(a.acCode, b.acCode) else b.date - a.date < 0
  }

  /** The comparator does not put `b` strictly before `a`. */
  predicate NotAfter(mode: Mode, a: Event, b: Event): (r: bool)
    ensures a == b ==> r
    ensures mode == ByDate ==> (r <==> a.date >= b.date)
    ensures a.acCode == b.acCode ==> (r <==> a.date >= b.date)
  {
    !Before(mode, b, a)
  }

  predicate Sorted(mode: Mode, s: seq<Event>) {
    forall i, j :: 0 <= i < j < |s| ==> NotAfter(mode, s[i], s[j])
  }

  /** In AC mode, codes ascend, and within a code the most recent event comes first. */
  lemma SortedByAc(s: seq<Event>)
    requires Sorted(ByAc, s)
    ensures forall i, j :: 0 <= i < j < |s| ==> Text.LessEq(s[i].acCode, s[j].acCode)
    ensures forall i, j :: 0 <= i < j < |s| && s[i].acCode == s[j].acCode ==> s[i].date >= s[j].date
  {
    forall i, j | 0 <= i < j < |s|
      ensures Text.LessEq(s[i].acCode, s[j].acCode)
    {
      NotAfterByAc(s[i], s[j]);
      Text.LessEqTotal(s[i].acCode, s[i].acCode);
    }
  }

  /** What `NotAfter` means in AC mode. */
  lemma NotAfterByAc(a: Event, b: Event)
    ensures NotAfter(ByAc, a, b) <==>
              (a.acCode != b.acCode && Text.LessEq(a.acCode, b.acCode)) || (a.acCode == b.acCode && a.date >= b.date)
  {
    Text.LessEqTotal(a.acCode, b.acCode);
    if Text.LessEq(a.acCode, b.acCode) && Text.LessEq(b.acCode, a.acCode) {
      Text.LessEqAntisymmetric(a.acCode, b.acCode);
    }
  }

  lemma BeforeAsymmetric(mode: Mode, a: Event, b: Event)
    requires Before(mode, a, b)
    ensures NotAfter(mode, a, b)
  {
    if mode == ByAc && a.acCode != b.acCode && Text.LessEq(b.acCode, a.acCode) {
      Text.LessEqAntisymmetric(a.acCode, b.acCode);
    }
  }

  lemma NotAfterTransitive(mode: Mode, a: Event, b: Event, c: Event)
    requires NotAfter(mode, a, b) && NotAfter(mode, b, c)
    ensures NotAfter(mode, a, c)
  {
    if mode == ByAc {
      NotAfterByAc(a, b);
      NotAfterByAc(b, c);
      NotAfterByAc(a, c);
      if a.acCode != b.acCode && b.acCode != c.acCode {
        Text.LessEqTransitive(a.acCode, b.acCode, c.acCode);
        if a.acCode == c.acCode {
          Text.LessEqAntisymmetric(a.acCode, b.acCode);
        }
      }
    }
  }

  /** Placing `x` at `j`, after the events not after it and before those it precedes, keeps the order. */
  lemma InsertedSorted(mode: Mode, s: seq<Event>, x: Event, j: nat)
    requires Sorted(mode, s) && j <= |s|
    requires j > 0 ==> NotAfter(mode, s[j - 1], x)
    requires forall k :: j <= k < |s| ==> Before(mode, x, s[k])
    ensures Sorted(mode, s[..j] + [x] + s[j..])
  {
    var r := s[..j] + [x] + s[j..];
    assert forall p :: 0 <= p < j ==> r[p] == s[p];
    assert r[j] == x;
    assert forall p :: j < p < |r| ==> r[p] == s[p - 1];
    forall p, q | 0 <= p < q < |r|
      ensures NotAfter(mode, r[p], r[q])
    {
      if q == j {
        if p < j - 1 {
          NotAfterTransitive(mode, s[p], s[j - 1], x);
        }
      } else if p == j {
        BeforeAsymmetric(mode, x, s[q - 1]);
      }
    }
  }

  /** One step of the sort: `x` goes after every event it does not precede. */
  method Insert(mode: Mode, s: seq<Event>, x: Event) returns (r: seq<Event>)
    requires Sorted(mode, s)
    ensures Sorted(mode, r)
    ensures multiset(r) == multiset(s) + multiset{x}
  {
    var j := |s|;
    while j > 0 && Before(mode, x, s[j - 1])
      invariant 0 <= j <= |s|
      invariant forall k :: j <= k < |s| ==> Before(mode, x, s[k])
    {
      j := j - 1;
    }
    r := s[..j] + [x] + s[j..];
    InsertedSorted(mode, s, x, j);
    assert s == s[..j] + s[j..];
  }

  /** `events.sort(comparator)`: the same events, in the comparator's order. */
  method SortEvents(mode: Mode, events: seq<Event>) returns (sorted: seq<Event>)
    ensures Sorted(mode, sorted)
    ensures multiset(sorted) == multiset(events)
  {
    sorted := [];
    for i := 0 to |events|
      invariant Sorted(mode, sorted)
      invariant multiset(sorted) == multiset(events[..i])
    {
      sorted := Insert(mode, sorted, events[i]);
      assert events[..i + 1] == events[..i] + [events[i]];
    }
    assert events[..|events|] == events;
  }

  // ------------------------------------------------------------- rendering

  /** `labels[level]`: a label for the levels 0 to 5, `undefined` for any other. */
  function LevelLabel(level: int): (r: Option<string>)
    ensures r.Some? <==> 0 <= level <= 5
  {
    if level == 0 then Some("Jamais vu")
    else if level == 1 then Some("Non acquis")
    else if level == 2 then Some("Fragile")
    else if level == 3 then Some("En cours d'acquisition")
    else if level == 4 then Some("Acquis")
    else if level == 5 then Some("Dépassé")
    else None
  }

  function ItemOf(e: Event, formatDate: int -> string, formatTime: int -> string): Node {
    Item(e.acCode, e.libelle, e.level, formatDate(e.date), formatTime(e.date), LevelLabel(e.level))
  }

  /**
   * The nodes for `es` when the previous AC code seen is `last`: in AC mode a
   * separator before each event that starts a new code, except the first.
   */
  function Rendered(mode: Mode, es: seq<Event>, last: Option<string>,
                    formatDate: int -> string, formatTime: int -> string): seq<Node>
  {
    if es == [] then []
    else
      var e := es[0];
      var item := ItemOf(e, formatDate, formatTime);
      if mode == ByAc && Some(e.acCode) != last then
        var rest := Rendered(mode, es[1..], Some(e.acCode), formatDate, formatTime);
        if last.Some? then [Separator] + ([item] + rest) else [item] + rest
      else
        [item] + Rendered(mode, es[1..], last, formatDate, formatTime)
  }

  /** The node sequence `Rendered` starts with for the event `e`. */
  function Chunk(mode: Mode, e: Event, last: Option<string>,
                 formatDate: int -> string, formatTime: int -> string): seq<Node> {
    var item := ItemOf(e, formatDate, formatTime);
    if mode == ByAc && Some(e.acCode) != last && last.Some? then [Separator, item] else [item]
  }

  lemma RenderedStep(mode: Mode, es: seq<Event>, i: nat, last: Option<string>,
                     formatDate: int -> string, formatTime: int -> string)
    requires i < |es|
    ensures Rendered(mode, es[i..], last, formatDate, formatTime)
            == Chunk(mode, es[i], last, formatDate, formatTime)
               + Rendered(mode, es[i + 1..],
                          if mode == ByAc && Some(es[i].acCode) != last then Some(es[i].acCode) else last,
                          formatDate, formatTime)
  {
    assert es[i..][1..] == es[i + 1..];
  }

  lemma AppendStep(before: seq<Node>, chunk: seq<Node>, rest: seq<Node>, remaining: seq<Node>, whole: seq<Node>)
    requires before + remaining == whole && remaining == chunk + rest
    ensures (before + chunk) + rest == whole
  {
  }

  /** The `forEach` over the sorted events. */
  method RenderEvents(mode: Mode, sorted: seq<Event>, formatDate: int -> string, formatTime: int -> string)
    returns (fragment: seq<Node>)
    ensures fragment == Rendered(mode, sorted, None, formatDate, formatTime)
  {
    fragment := [];
    var lastAcCode: Option<string> := None;
    for i := 0 to |sorted|
      invariant fragment + Rendered(mode, sorted[i..], lastAcCode, formatDate, formatTime)
                == Rendered(mode, sorted, None, formatDate, formatTime)
    {
      var event := sorted[i];
      RenderedStep(mode, sorted, i, lastAcCode, formatDate, formatTime);
      ghost var before, previous := fragment, lastAcCode;
      if mode == ByAc && Some(event.acCode) != lastAcCode {
        if lastAcCode.Some? {
          fragment := fragment + [Separator];
        }
        lastAcCode := Some(event.acCode);
      }
      fragment := fragment + [ItemOf(event, formatDate, formatTime)];
      assert fragment == before + Chunk(mode, event, previous, formatDate, formatTime);
      AppendStep(before, Chunk(mode, event, previous, formatDate, formatTime),
                 Rendered(mode, sorted[i + 1..], lastAcCode, formatDate, formatTime),
                 Rendered(mode, sorted[i..], previous, formatDate, formatTime),
                 Rendered(mode, sorted, None, formatDate, formatTime));
    }
  }

  /** The items of a node sequence, separators and empty state left out. */
  function Items(nodes: seq<Node>): seq<Node> {
    if nodes == [] then []
    else (if nodes[0].Item? then [nodes[0]] else []) + Items(nodes[1..])
  }

  function Separators(nodes: seq<Node>): nat {
    if nodes == [] then 0
    else (if nodes[0].Separator? then 1 else 0) + Separators(nodes[1..])
  }

  /** The distinct AC codes of `es`. */
  function CodesOf(es: seq<Event>): set<string> {
    if es == [] then {} else {es[0].acCode} + CodesOf(es[1..])
  }

  /** Every event gets one item, in order, labelled after its level. */
  lemma {:induction false} RenderedItems(mode: Mode, es: seq<Event>, last: Option<string>,
                                         formatDate: int -> string, formatTime: int -> string)
    ensures Items(Rendered(mode, es, last, formatDate, formatTime))
            == seq(|es|, i requires 0 <= i < |es| => ItemOf(es[i], formatDate, formatTime))
  {
    if es != [] {
      var e := es[0];
      var item := ItemOf(e, formatDate, formatTime);
      var next := if mode == ByAc && Some(e.acCode) != last then Some(e.acCode) else last;
      var rest := Rendered(mode, es[1..], next, formatDate, formatTime);
      RenderedItems(mode, es[1..], next, formatDate, formatTime);
      assert ([item] + rest)[0] == item && ([item] + rest)[1..] == rest;
      assert ([Separator] + ([item] + rest))[1..] == [item] + rest;
    }
  }

  /** Sorting by date draws no separator. */
  lemma {:induction false} NoSeparatorsByDate(es: seq<Event>, last: Option<string>,
                                              formatDate: int -> string, formatTime: int -> string)
    ensures Separators(Rendered(ByDate, es, last, formatDate, formatTime)) == 0
  {
    if es != [] {
      var item := ItemOf(es[0], formatDate, formatTime);
      var rest := Rendered(ByDate, es[1..], last, formatDate, formatTime);
      NoSeparatorsByDate(es[1..], last, formatDate, formatTime);
      assert ([item] + rest)[1..] == rest;
    }
  }

  lemma CodesMembers(es: seq<Event>, c: string)
    ensures c in CodesOf(es) <==> exists i :: 0 <= i < |es| && es[i].acCode == c
  {
    if es != [] {
      CodesMembers(es[1..], c);
      assert forall i :: 0 < i < |es| ==> es[1..][i - 1] == es[i];
    }
  }

  lemma {:induction false} CodesContain(es: seq<Event>, c: string)
    ensures c in CodesOf(es) <==> exists e :: e in es && e.acCode == c
  {
    if es != [] {
      CodesContain(es[1..], c);
      assert es == [es[0]] + es[1..];
    }
  }

  /** A code strictly below every code of `es` is not among them. */
  lemma CodeBelowAll(es: seq<Event>, c: string, d: string)
    requires c != d && Text.LessEq(c, d)
    requires forall i :: 0 <= i < |es| ==> Text.LessEq(d, es[i].acCode)
    ensures c !in CodesOf(es)
  {
    CodesMembers(es, c);
    if c in CodesOf(es) {
      var i :| 0 <= i < |es| && es[i].acCode == c;
      Text.LessEqAntisymmetric(c, d);
    }
  }

  /** The codes of `es` other than `c`, when `es` starts with a new code `d`. */
  lemma CodesAfterNewCode(es: seq<Event>, c: string)
    requires es != [] && es[0].acCode != c && c !in CodesOf(es[1..])
    ensures |CodesOf(es) - {c}| == 1 + |CodesOf(es[1..]) - {es[0].acCode}|
  {
    var d := es[0].acCode;
    assert CodesOf(es) - {c} == {d} + (CodesOf(es[1..]) - {d});
  }

  /**
   * After code `c`, with codes ascending from `c` on, one separator is drawn
   * per code other than `c`.
   */
  lemma {:induction false} SeparatorsAfter(es: seq<Event>, c: string,
                                           formatDate: int -> string, formatTime: int -> string)
    requires forall i, j :: 0 <= i < j < |es| ==> Text.LessEq(es[i].acCode, es[j].acCode)
    requires forall i :: 0 <= i < |es| ==> Text.LessEq(c, es[i].acCode)
    ensures Separators(Rendered(ByAc, es, Some(c), formatDate, formatTime)) == |CodesOf(es) - {c}|
  {
    if es != [] {
      var e := es[0];
      var item := ItemOf(e, formatDate, formatTime);
      var tail := es[1..];
      assert forall i :: 0 <= i < |tail| ==> tail[i] == es[i + 1];
      if e.acCode == c {
        var rest := Rendered(ByAc, tail, Some(c), formatDate, formatTime);
        SeparatorsAfter(tail, c, formatDate, formatTime);
        assert ([item] + rest)[1..] == rest;
        assert CodesOf(es) - {c} == CodesOf(tail) - {c};
      } else {
        var rest := Rendered(ByAc, tail, Some(e.acCode), formatDate, formatTime);
        SeparatorsAfter(tail, e.acCode, formatDate, formatTime);
        assert ([Separator] + ([item] + rest))[1..] == [item] + rest;
        assert ([item] + rest)[1..] == rest;
        CodeBelowAll(tail, c, e.acCode);
        CodesAfterNewCode(es, c);
      }
    }
  }

  /** Grouping by AC draws one separator between consecutive codes: one fewer than the codes. */
  lemma SeparatorsByAc(es: seq<Event>, formatDate: int -> string, formatTime: int -> string)
    requires Sorted(ByAc, es) && es != []
    ensures Separators(Rendered(ByAc, es, None, formatDate, formatTime)) == |CodesOf(es)| - 1
  {
    SortedByAc(es);
    var e := es[0];
    var tail := es[1..];
    var item := ItemOf(e, formatDate, formatTime);
    var rest := Rendered(ByAc, tail, Some(e.acCode), formatDate, formatTime);
    assert forall i :: 0 <= i < |tail| ==> tail[i] == es[i + 1];
    SeparatorsAfter(tail, e.acCode, formatDate, formatTime);
    assert ([item] + rest)[1..] == rest;
    assert CodesOf(es) == {e.acCode} + (CodesOf(tail) - {e.acCode});
  }

  /**
   * In AC mode a separator never ends the list and always stands between two
   * items of different codes; at the start it stands before an item whose code
   * differs from the previous code `last`.
   */
  lemma {:induction false} SeparatorBetweenGroups(es: seq<Event>, last: Option<string>,
                                                  formatDate: int -> string, formatTime: int -> string, k: nat)
    requires k < |Rendered(ByAc, es, last, formatDate, formatTime)|
    requires Rendered(ByAc, es, last, formatDate, formatTime)[k] == Separator
    ensures var r := Rendered(ByAc, es, last, formatDate, formatTime);
            && k + 1 < |r| && r[k + 1].Item?
            && (k == 0 ==> last.Some? && r[1].acCode != last.value)
            && (k > 0 ==> r[k - 1].Item? && r[k - 1].acCode != r[k + 1].acCode)
  {
    var r := Rendered(ByAc, es, last, formatDate, formatTime);
    var e := es[0];
    var item := ItemOf(e, formatDate, formatTime);
    if Some(e.acCode) != last {
      var rest := Rendered(ByAc, es[1..], Some(e.acCode), formatDate, formatTime);
      if last.Some? {
        assert r == [Separator, item] + rest;
        if k >= 2 {
          SeparatorBetweenGroups(es[1..], Some(e.acCode), formatDate, formatTime, k - 2);
        }
      } else {
        assert r == [item] + rest;
        SeparatorBetweenGroups(es[1..], Some(e.acCode), formatDate, formatTime, k - 1);
      }
    } else {
      var rest := Rendered(ByAc, es[1..], last, formatDate, formatTime);
      assert r == [item] + rest;
      SeparatorBetweenGroups(es[1..], last, formatDate, formatTime, k - 1);
    }
  }

  /** In AC mode, two items with nothing between them belong to the same AC. */
  lemma {:induction false} AdjacentItemsShareCode(es: seq<Event>, last: Option<string>,
                                                  formatDate: int -> string, formatTime: int -> string, k: nat)
    requires k + 1 < |Rendered(ByAc, es, last, formatDate, formatTime)|
    requires Rendered(ByAc, es, last, formatDate, formatTime)[k].Item?
    requires Rendered(ByAc, es, last, formatDate, formatTime)[k + 1].Item?
    ensures Rendered(ByAc, es, last, formatDate, formatTime)[k].acCode
            == Rendered(ByAc, es, last, formatDate, formatTime)[k + 1].acCode
  {
    var r := Rendered(ByAc, es, last, formatDate, formatTime);
    var e := es[0];
    var item := ItemOf(e, formatDate, formatTime);
    if Some(e.acCode) != last {
      var rest := Rendered(ByAc, es[1..], Some(e.acCode), formatDate, formatTime);
      if last.Some? {
        assert r == [Separator, item] + rest;
        if k >= 2 {
          AdjacentItemsShareCode(es[1..], Some(e.acCode), formatDate, formatTime, k - 2);
        } else {
          FirstItemContinues(es[1..], e.acCode, formatDate, formatTime);
        }
      } else {
        assert r == [item] + rest;
        if k >= 1 {
          AdjacentItemsShareCode(es[1..], Some(e.acCode), formatDate, formatTime, k - 1);
        } else {
          FirstItemContinues(es[1..], e.acCode, formatDate, formatTime);
        }
      }
    } else {
      var rest := Rendered(ByAc, es[1..], last, formatDate, formatTime);
      assert r == [item] + rest;
      if k >= 1 {
        AdjacentItemsShareCode(es[1..], last, formatDate, formatTime, k - 1);
      } else {
        FirstItemContinues(es[1..], e.acCode, formatDate, formatTime);
      }
    }
  }

  /** A list that starts with an item, after code `c`, starts with an item of code `c`. */
  lemma FirstItemContinues(es: seq<Event>, c: string, formatDate: int -> string, formatTime: int -> string)
    ensures var r := Rendered(ByAc, es, Some(c), formatDate, formatTime);
            |r| > 0 && r[0].Item? ==> r[0].acCode == c
  {
    if es != [] && es[0].acCode == c {
      assert Rendered(ByAc, es, Some(c), formatDate, formatTime)[0] == ItemOf(es[0], formatDate, formatTime);
    }
  }

  /** The entry at `n` has code `c` and at least one recorded date. */
  predicate DatedCodeAt(index: seq<Entry>, c: string, n: int) {
    0 <= n < |index| && |index[n].dates| > 0 && index[n].code == c
  }

  lemma CodeOfEvent(index: seq<Entry>, timeOf: string -> int, ev: Event)
    requires ev in Collected(index, timeOf)
    ensures exists n :: DatedCodeAt(index, ev.acCode, n)
  {
    CollectedMembers(index, timeOf, ev);
    var n :| RecordedAt(index, timeOf, ev, n);
    var level :| level in index[n].dates && ev == EventAt(index[n], level, timeOf);
    assert DatedCodeAt(index, ev.acCode, n);
  }

  lemma EventOfCode(index: seq<Entry>, timeOf: string -> int, c: string, n: int)
    requires DatedCodeAt(index, c, n)
    ensures exists ev :: ev in Collected(index, timeOf) && ev.acCode == c
  {
    var keys := index[n].dates.Keys;
    assert |keys| == |index[n].dates| > 0;
    var level := KeyOrder.Min(keys);
    var ev := EventAt(index[n], level, timeOf);
    assert RecordedAt(index, timeOf, ev, n);
    CollectedMembers(index, timeOf, ev);
  }

  /** The codes among the events are those of the entries with at least one date. */
  lemma CollectedCodes(index: seq<Entry>, timeOf: string -> int, c: string)
    ensures c in CodesOf(Collected(index, timeOf)) <==> exists n :: DatedCodeAt(index, c, n)
  {
    var events := Collected(index, timeOf);
    CodesContain(events, c);
    if c in CodesOf(events) {
      var ev :| ev in events && ev.acCode == c;
      CodeOfEvent(index, timeOf, ev);
    }
    if exists n :: DatedCodeAt(index, c, n) {
      var n :| DatedCodeAt(index, c, n);
      EventOfCode(index, timeOf, c, n);
    }
  }

  /** Reordering events keeps their codes. */
  lemma CodesOfPermutation(a: seq<Event>, b: seq<Event>)
    requires multiset(a) == multiset(b)
    ensures CodesOf(a) == CodesOf(b)
  {
    forall c
      ensures c in CodesOf(a) <==> c in CodesOf(b)
    {
      CodesContain(a, c);
      CodesContain(b, c);
      assert forall e :: e in a <==> e in multiset(b);
    }
  }

  // ------------------------------------------------------------ the whole

  /**
   * `generateHistoryContent(acIndex, sortMode)`, with `acIndex` as its entries
   * in key order. `order` is the order the events are sorted into.
   */
  method GenerateHistoryContent(acIndex: seq<Entry>, sortMode: string, timeOf: string -> int,
                                formatDate: int -> string, formatTime: int -> string)
    returns (fragment: seq<Node>, ghost order: seq<Event>)
    ensures fragment == [EmptyState] <==> TotalDates(acIndex) == 0
    ensures TotalDates(acIndex) > 0 ==> fragment == Rendered(ModeOf(sortMode), order, None, formatDate, formatTime)
    ensures TotalDates(acIndex) > 0 ==>
              && multiset(order) == multiset(Collected(acIndex, timeOf))
              && Sorted(ModeOf(sortMode), order)
              && Items(fragment) == seq(|order|, i requires 0 <= i < |order| => ItemOf(order[i], formatDate, formatTime))
              && |Items(fragment)| == TotalDates(acIndex)
    ensures sortMode != "ac" ==> forall i, j :: 0 <= i < j < |order| ==> order[i].date >= order[j].date
    ensures sortMode == "ac" ==> forall i, j :: 0 <= i < j < |order| ==> Text.LessEq(order[i].acCode, order[j].acCode)
    ensures sortMode == "ac" ==>
              forall i, j :: 0 <= i < j < |order| && order[i].acCode == order[j].acCode ==> order[i].date >= order[j].date
    ensures TotalDates(acIndex) > 0 && sortMode != "ac" ==> Separators(fragment) == 0
    ensures TotalDates(acIndex) > 0 && sortMode == "ac" ==>
              Separators(fragment) == |CodesOf(Collected(acIndex, timeOf))| - 1
  {
    var events := CollectEvents(acIndex, timeOf);
    CollectedCount(acIndex, timeOf);
    if |events| == 0 {
      return [EmptyState], [];
    }
    var mode := ModeOf(sortMode);
    var sorted := SortEvents(mode, events);
    order := sorted;
    fragment := RenderEvents(mode, sorted, formatDate, formatTime);
    assert |sorted| == |multiset(sorted)| == |events|;
    RenderedItems(mode, sorted, None, formatDate, formatTime);
    if mode == ByDate {
      NoSeparatorsByDate(sorted, None, formatDate, formatTime);
    } else {
      SortedByAc(sorted);
      SeparatorsByAc(sorted, formatDate, formatTime);
      CodesOfPermutation(sorted, events);
    }
    assert Items([EmptyState]) == [];
  }
}
