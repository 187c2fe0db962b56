/** Who contributed what to a run: per producer, how many results it reported, how many of
    them nobody else reported, and how many resolved. */
module Contributions {
  import opened Wrappers
  import opened Ordering
  import opened EvidenceModel
  import opened EvidenceRows
  import opened EvidenceConstraints
  import opened EvidenceLoad
  import opened EvidenceRoundTrip

  /** For each result, the producers that reported it. */
  type Produced = map<ResultId, set<string>>

  function NameAt(rows: RunRows, producerKind: string, p: nat): Option<string> {
    match FindProducer(rows.executions, p)
    case Some(producer) => if producer.kind == producerKind then Some(producer.name) else None
    case None => None
  }

  function ItemAt(rows: RunRows, kind: Option<string>, p: nat): Option<ResultId> {
    match FindResult(rows.results, p)
    case Some(x) => if kind.Some? && x.kind != kind.value then None else Some(x)
    case None => None
  }

  function Names(produced: Produced, x: ResultId): set<string> {
    if x in produced then produced[x] else {}
  }

  function Attribute(rows: RunRows, producerKind: string, kind: Option<string>, os: seq<OriginRow>): Produced {
    if os == [] then map[]
    else
      var before, o := Attribute(rows, producerKind, kind, os[..|os| - 1]), os[|os| - 1];
      match (NameAt(rows, producerKind, o.executionPosition), ItemAt(rows, kind, o.resultPosition))
      case (Some(name), Some(x)) => before[x := Names(before, x) + {name}]
      case _ => before
  }

  /** Link o says that name reported x. */
  predicate Reports(rows: RunRows, producerKind: string, o: OriginRow, x: ResultId, name: string) {
    NameAt(rows, producerKind, o.executionPosition) == Some(name) && ItemAt(rows, None, o.resultPosition) == Some(x)
  }

  /** A result has a producer exactly when some link says so. */
  lemma {:induction false} AttributeExact(rows: RunRows, producerKind: string, os: seq<OriginRow>, x: ResultId,
      name: string)
    ensures name in Names(Attribute(rows, producerKind, None, os), x) <==>
              exists o :: o in os && Reports(rows, producerKind, o, x, name)
  {
    hide NameAt, ItemAt;
    if os != [] {
      var before, last := os[..|os| - 1], os[|os| - 1];
      AttributeExact(rows, producerKind, before, x, name);
      assert os == before + [last];
      assert last in os;
    }
  }

  lemma {:induction false} AttributedHaveNames(rows: RunRows, producerKind: string, kind: Option<string>,
      os: seq<OriginRow>)
    ensures forall x | x in Attribute(rows, producerKind, kind, os) :: Attribute(rows, producerKind, kind, os)[x] != {}
  {
    if os != [] { AttributedHaveNames(rows, producerKind, kind, os[..|os| - 1]); }
  }

  /** Asking for one kind is the same as asking for all and keeping that kind. */
  lemma {:induction false} KindRestricts(rows: RunRows, producerKind: string, kind: string, os: seq<OriginRow>)
    ensures var all := Attribute(rows, producerKind, None, os);
            Attribute(rows, producerKind, Some(kind), os) == map x | x in all && x.kind == kind :: all[x]
  {
    if os != [] { KindRestricts(rows, producerKind, kind, os[..|os| - 1]); }
  }

  method CollectProducers(rows: RunRows, producerKind: string, kind: Option<string>) returns (produced: Produced)
    ensures produced == Attribute(rows, producerKind, kind, rows.origins)
  {
    produced := map[];
    for i := 0 to |rows.origins|
      invariant produced == Attribute(rows, producerKind, kind, rows.origins[..i])
    {
      assert rows.origins[..i + 1][..i] == rows.origins[..i];
      var o := rows.origins[i];
      var producer := NameAt(rows, producerKind, o.executionPosition);
      var item := ItemAt(rows, kind, o.resultPosition);
      if producer.Some? && item.Some? {
        produced := produced[item.value := Names(produced, item.value) + {producer.value}];
      }
    }
    assert rows.origins[..|rows.origins|] == rows.origins;
  }

  // ---- counting ----

  function Observed(produced: Produced, xs: set<ResultId>, name: string): set<ResultId> {
    set x | x in xs && name in Names(produced, x)
  }

  function Unique(produced: Produced, xs: set<ResultId>, name: string): set<ResultId> {
    set x | x in Observed(produced, xs, name) && |Names(produced, x)| == 1
  }

  function Shared(produced: Produced, xs: set<ResultId>, name: string): set<ResultId> {
    set x | x in Observed(produced, xs, name) && |Names(produced, x)| != 1
  }

  datatype Counters = Counters(
    observed: map<string, nat>, unique: map<string, nat>, shared: map<string, nat>,
    resolved: map<string, nat>, uniqueResolved: map<string, nat>)

  function Get(counter: map<string, nat>, name: string): nat { if name in counter then counter[name] else 0 }

  function Bump(counter: map<string, nat>, name: string): map<string, nat> { counter[name := Get(counter, name) + 1] }

  function Hits(xs: set<ResultId>, resolved: set<ResultId>): nat { |xs * resolved| }

  predicate Sizes(
      c: Counters, name: string, observed: set<ResultId>, unique: set<ResultId>, shared: set<ResultId>,
      resolved: set<ResultId>)
  {
    && Get(c.observed, name) == |observed| && Get(c.unique, name) == |unique| && Get(c.shared, name) == |shared|
    && Get(c.resolved, name) == Hits(observed, resolved) && Get(c.uniqueResolved, name) == Hits(unique, resolved)
  }

  /** The counters hold the sizes of name's result sets among xs. */
  predicate Tallied(produced: Produced, resolved: set<ResultId>, c: Counters, xs: set<ResultId>, name: string) {
    Sizes(c, name, Observed(produced, xs, name), Unique(produced, xs, name), Shared(produced, xs, name), resolved)
  }

  /** The counters after x is counted for name. */
  function Counted(produced: Produced, resolved: set<ResultId>, c: Counters, x: ResultId, name: string): Counters {
    var alone := |Names(produced, x)| == 1;
    Counters(
      Bump(c.observed, name),
      if alone then Bump(c.unique, name) else c.unique,
      if alone then c.shared else Bump(c.shared, name),
      if x in resolved then Bump(c.resolved, name) else c.resolved,
      if x in resolved && alone then Bump(c.uniqueResolved, name) else c.uniqueResolved)
  }

  lemma SetsGrow(produced: Produced, xs: set<ResultId>, x: ResultId, name: string)
    requires name in Names(produced, x)
    ensures Observed(produced, xs + {x}, name) == Observed(produced, xs, name) + {x}
    ensures Unique(produced, xs + {x}, name) ==
              if |Names(produced, x)| == 1 then Unique(produced, xs, name) + {x} else Unique(produced, xs, name)
    ensures Shared(produced, xs + {x}, name) ==
              if |Names(produced, x)| == 1 then Shared(produced, xs, name) else Shared(produced, xs, name) + {x}
  {
  }

  lemma SizesGrow(s: set<ResultId>, x: ResultId, resolved: set<ResultId>)
    requires x !in s
    ensures |s + {x}| == |s| + 1
    ensures Hits(s + {x}, resolved) == Hits(s, resolved) + if x in resolved then 1 else 0
  {
    assert (s + {x}) * resolved == if x in resolved then s * resolved + {x} else s * resolved;
  }

  lemma NotYet(produced: Produced, xs: set<ResultId>, x: ResultId, name: string)
    requires x !in xs
    ensures x !in Observed(produced, xs, name) && x !in Unique(produced, xs, name) && x !in Shared(produced, xs, name)
  {
  }

  lemma CountOne(produced: Produced, resolved: set<ResultId>, c: Counters, xs: set<ResultId>, x: ResultId, name: string)
    requires x !in xs && name in Names(produced, x) && Tallied(produced, resolved, c, xs, name)
    ensures Tallied(produced, resolved, Counted(produced, resolved, c, x, name), xs + {x}, name)
  {
    hide Observed, Unique, Shared, Names, Sizes, Counted;
    SetsGrow(produced, xs, x, name);
    NotYet(produced, xs, x, name);
    SizesStep(produced, resolved, c, x, name, Observed(produced, xs, name), Unique(produced, xs, name),
        Shared(produced, xs, name));
  }

  lemma SizesStep(
      produced: Produced, resolved: set<ResultId>, c: Counters, x: ResultId, name: string, o: set<ResultId>,
      u: set<ResultId>, s: set<ResultId>)
    requires x !in o && x !in u && x !in s && Sizes(c, name, o, u, s, resolved)
    ensures Sizes(Counted(produced, resolved, c, x, name), name, o + {x},
                  if |Names(produced, x)| == 1 then u + {x} else u,
                  if |Names(produced, x)| == 1 then s else s + {x}, resolved)
  {
    hide Names, Hits;
    SizesGrow(o, x, resolved);
    SizesGrow(u, x, resolved);
    SizesGrow(s, x, resolved);
  }

  lemma CountOthers(
      produced: Produced, resolved: set<ResultId>, c: Counters, xs: set<ResultId>, x: ResultId, name: string,
      other: string)
    requires other != name && Tallied(produced, resolved, c, xs, other)
    ensures Tallied(produced, resolved, Counted(produced, resolved, c, x, name), xs, other)
  {
    hide Observed, Unique, Shared;
  }

  lemma CountNothing(produced: Produced, resolved: set<ResultId>, c: Counters, xs: set<ResultId>, x: ResultId,
      name: string)
    requires name !in Names(produced, x) && Tallied(produced, resolved, c, xs, name)
    ensures Tallied(produced, resolved, c, xs + {x}, name)
  {
    assert Observed(produced, xs + {x}, name) == Observed(produced, xs, name);
  }

  lemma NothingCounted(produced: Produced, resolved: set<ResultId>)
    ensures forall name :: Tallied(produced, resolved, Counters(map[], map[], map[], map[], map[]), {}, name)
  {
  }

  /** While x is being counted: the names already counted include it. */
  predicate Midway(
      produced: Produced, resolved: set<ResultId>, c: Counters, xs: set<ResultId>, x: ResultId, counted: set<string>,
      name: string)
  {
    Tallied(produced, resolved, c, if name in counted then xs + {x} else xs, name)
  }

  lemma CountedMidway(
      produced: Produced, resolved: set<ResultId>, c: Counters, xs: set<ResultId>, x: ResultId, counted: set<string>,
      next: string)
    requires x !in xs && next in Names(produced, x) && next !in counted
    requires forall name :: Midway(produced, resolved, c, xs, x, counted, name)
    ensures forall name ::
              Midway(produced, resolved, Counted(produced, resolved, c, x, next), xs, x, counted + {next}, name)
  {
    hide Tallied, Counted, Names;
    assert Midway(produced, resolved, c, xs, x, counted, next);
    CountOne(produced, resolved, c, xs, x, next);
    forall name | name != next
      ensures Midway(produced, resolved, Counted(produced, resolved, c, x, next), xs, x, counted + {next}, name)
    {
      assert Midway(produced, resolved, c, xs, x, counted, name);
      CountOthers(produced, resolved, c, if name in counted then xs + {x} else xs, x, next, name);
    }
  }

  /** Counting one result for each of its producers. */
  method CountResult(produced: Produced, resolved: set<ResultId>, c: Counters, ghost xs: set<ResultId>, x: ResultId)
    returns (after: Counters)
    requires x in produced && x !in xs && forall name :: Tallied(produced, resolved, c, xs, name)
    ensures forall name :: Tallied(produced, resolved, after, xs + {x}, name)
  {
    hide Tallied, Counted;
    after := c;
    var producers := produced[x];
    ghost var counted: set<string> := {};
    assert forall name :: Midway(produced, resolved, after, xs, x, counted, name);
    while producers != {}
      invariant counted !! producers && counted + producers == produced[x]
      invariant forall name :: Midway(produced, resolved, after, xs, x, counted, name)
      decreases |producers|
    {
      hide Midway;
      var producer :| producer in producers;
      CountedMidway(produced, resolved, after, xs, x, counted, producer);
      after := Counted(produced, resolved, after, x, producer);
      producers := producers - {producer};
      counted := counted + {producer};
    }
    forall name ensures Tallied(produced, resolved, after, xs + {x}, name) {
      assert Midway(produced, resolved, after, xs, x, counted, name);
      if name !in produced[x] { CountNothing(produced, resolved, after, xs, x, name); }
    }
  }

  /** Each producer's counters hold the sizes of its result sets. */
  method CountProducers(produced: Produced, resolved: set<ResultId>) returns (c: Counters)
    ensures forall name :: Tallied(produced, resolved, c, produced.Keys, name)
  {
    hide Tallied;
    c := Counters(map[], map[], map[], map[], map[]);
    NothingCounted(produced, resolved);
    var todo := produced.Keys;
    ghost var done: set<ResultId> := {};
    while todo != {}
      invariant done !! todo && done + todo == produced.Keys
      invariant forall name :: Tallied(produced, resolved, c, done, name)
      decreases |todo|
    {
      var x :| x in todo;
      c := CountResult(produced, resolved, c, done, x);
      todo := todo - {x};
      done := done + {x};
    }
    assert done == produced.Keys;
  }

  // ---- the report ----

  datatype Contribution = Contribution(name: string, observed: nat, unique: nat, shared: nat, resolved: nat,
      uniqueResolved: nat)

  function ProducerNames(executions: seq<ExecutionRow>, producerKind: string): seq<string> {
    if executions == [] then []
    else
      var before, last := ProducerNames(executions[..|executions| - 1], producerKind),
          executions[|executions| - 1].producer;
      if last.kind == producerKind then before + [last.name] else before
  }

  function ResolvedBy(rows: RunRows, kind: Option<string>, o: OriginRow): Option<ResultId> {
    var item := ItemAt(rows, kind, o.resultPosition);
    if NameAt(rows, "action", o.executionPosition) == Some("dns-resolve") && item.Some?
        && item.value.kind == "hostname" then item
    else None
  }

  function Resolved(rows: RunRows, kind: Option<string>): set<ResultId> {
    set o | o in rows.origins && ResolvedBy(rows, kind, o).Some? :: ResolvedBy(rows, kind, o).value
  }

  /** What the links say about one producer. */
  function ContributionOf(rows: RunRows, producerKind: string, kind: Option<string>, name: string): Contribution {
    var produced, resolved := Attribute(rows, producerKind, kind, rows.origins), Resolved(rows, kind);
    var observed, unique := Observed(produced, produced.Keys, name), Unique(produced, produced.Keys, name);
    Contribution(name, |observed|, |unique|, |Shared(produced, produced.Keys, name)|, Hits(observed, resolved),
        Hits(unique, resolved))
  }

  method ProducerContributions(rows: RunRows, producerKind: string, kind: Option<string>)
      returns (report: seq<Contribution>)
    ensures var names := Sorted(ProducerNames(rows.executions, producerKind), TextKey);
            && |report| == |names|
            && forall i | 0 <= i < |names| :: report[i] == ContributionOf(rows, producerKind, kind, names[i])
  {
    hide Attribute, Observed, Unique, Shared, Hits, Sorted, ProducerNames, Resolved;
    var resolved := Resolved(rows, kind);
    var produced := CollectProducers(rows, producerKind, kind);
    var c := CountProducers(produced, resolved);
    var names := Sorted(ProducerNames(rows.executions, producerKind), TextKey);
    report := [];
    for i := 0 to |names|
      invariant |report| == i
      invariant forall j | 0 <= j < i :: report[j] == ContributionOf(rows, producerKind, kind, names[j])
    {
      var name := names[i];
      assert Tallied(produced, resolved, c, produced.Keys, name);
      report := report + [Contribution(name, Get(c.observed, name), Get(c.unique, name), Get(c.shared, name),
                                       Get(c.resolved, name), Get(c.uniqueResolved, name))];
    }
  }

  // ---- conservation ----

  /** What a producer reported is either its own or shared, and resolution counts are
      bounded by both. */
  lemma Balance(rows: RunRows, producerKind: string, kind: Option<string>, name: string)
    ensures var c := ContributionOf(rows, producerKind, kind, name);
            && c.observed == c.unique + c.shared
            && c.uniqueResolved <= c.unique && c.uniqueResolved <= c.resolved && c.resolved <= c.observed
  {
    var produced, resolved := Attribute(rows, producerKind, kind, rows.origins), Resolved(rows, kind);
    var o, u := Observed(produced, produced.Keys, name), Unique(produced, produced.Keys, name);
    var s := Shared(produced, produced.Keys, name);
    assert o == u + s && u !! s && u <= o;
    hide Observed, Unique, Shared, Resolved, Attribute;
    SizeOfPart(u * resolved, u);
    SizeOfPart(u * resolved, o * resolved);
    SizeOfPart(o * resolved, o);
  }

  lemma {:induction false} SizeOfPart<T>(a: set<T>, b: set<T>)
    requires a <= b
    ensures |a| <= |b|
  {
    assert b == a + (b - a);
  }

  /** Results of xs reported by one producer only, that producer being among names. */
  function Lone(produced: Produced, names: seq<string>): set<ResultId> {
    set x | x in produced && |produced[x]| == 1 && exists n | n in names :: n in produced[x]
  }

  function SumUnique(produced: Produced, names: seq<string>): nat {
    if names == [] then 0
    else SumUnique(produced, names[..|names| - 1]) + |Unique(produced, produced.Keys, names[|names| - 1])|
  }

  lemma OnlyMember(s: set<string>, a: string, b: string)
    requires |s| == 1 && a in s && b in s
    ensures a == b
  {
    assert s == {a} + (s - {a});
    assert |s - {a}| == 0;
  }

  lemma LoneGrows(produced: Produced, names: seq<string>, last: string)
    requires last !in names
    ensures Lone(produced, names + [last]) == Lone(produced, names) + Unique(produced, produced.Keys, last)
    ensures Lone(produced, names) !! Unique(produced, produced.Keys, last)
  {
    forall x | x in Lone(produced, names) ensures x !in Unique(produced, produced.Keys, last) {
      var n :| n in names && n in produced[x];
      if last in produced[x] { OnlyMember(produced[x], n, last); }
    }
    forall x | x in produced && |produced[x]| == 1
      ensures x in Lone(produced, names + [last]) <==> x in Lone(produced, names) || last in produced[x]
    {
      if n :| n in names && n in produced[x] { assert n in names + [last]; }
      if last in produced[x] { assert last in names + [last]; }
    }
  }

  lemma {:induction false} UniqueSumsToLone(produced: Produced, names: seq<string>)
    requires NoDuplicates(names)
    ensures SumUnique(produced, names) == |Lone(produced, names)|
  {
    if names == [] {
      assert Lone(produced, names) == {};
    } else {
      var before, last := names[..|names| - 1], names[|names| - 1];
      UniqueSumsToLone(produced, before);
      assert names == before + [last] && last !in before;
      LoneGrows(produced, before, last);
      hide Lone, Unique;
      assert |Lone(produced, before) + Unique(produced, produced.Keys, last)|
          == |Lone(produced, before)| + |Unique(produced, produced.Keys, last)|;
    }
  }

  /** Results that more than one producer reported. */
  function Multiple(produced: Produced): set<ResultId> {
    set x | x in produced && |produced[x]| > 1
  }

  lemma {:induction false} NamesListed(executions: seq<ExecutionRow>, producerKind: string)
    ensures forall name :: name in ProducerNames(executions, producerKind) <==>
              exists i :: 0 <= i < |executions| && executions[i].producer == Producer(producerKind, name)
    ensures (forall i, j | 0 <= i < j < |executions| :: executions[i].producer != executions[j].producer) ==>
              NoDuplicates(ProducerNames(executions, producerKind))
  {
    if executions != [] {
      var before, last := executions[..|executions| - 1], executions[|executions| - 1].producer;
      NamesListed(before, producerKind);
      forall name ensures name in ProducerNames(executions, producerKind) <==>
          exists i :: 0 <= i < |executions| && executions[i].producer == Producer(producerKind, name)
      {
        if i :| 0 <= i < |before| && before[i].producer == Producer(producerKind, name) {
          assert executions[i].producer == Producer(producerKind, name);
        }
      }
    }
  }

  lemma {:induction false} FoundProducer(executions: seq<ExecutionRow>, p: nat)
    requires FindProducer(executions, p).Some?
    ensures exists i :: 0 <= i < |executions| && executions[i].producer == FindProducer(executions, p).value
  {
    if executions[|executions| - 1].position != p { FoundProducer(executions[..|executions| - 1], p); }
  }

  lemma NameIsListed(rows: RunRows, producerKind: string, p: nat)
    ensures NameAt(rows, producerKind, p).Some? ==>
              NameAt(rows, producerKind, p).value in ProducerNames(rows.executions, producerKind)
  {
    NamesListed(rows.executions, producerKind);
    if FindProducer(rows.executions, p).Some? { FoundProducer(rows.executions, p); }
    hide ProducerNames, FindProducer;
  }

  lemma {:induction false} ProducersAreNamed(rows: RunRows, producerKind: string, kind: Option<string>,
      os: seq<OriginRow>)
    ensures forall x, name | name in Names(Attribute(rows, producerKind, kind, os), x) ::
              name in ProducerNames(rows.executions, producerKind)
  {
    hide ProducerNames, NameAt, ItemAt;
    if os != [] {
      ProducersAreNamed(rows, producerKind, kind, os[..|os| - 1]);
      var p := os[|os| - 1].executionPosition;
      NameIsListed(rows, producerKind, p);
      forall x, name | name in Names(Attribute(rows, producerKind, kind, os), x)
        ensures name in ProducerNames(rows.executions, producerKind)
      {
        assert name in Names(Attribute(rows, producerKind, kind, os[..|os| - 1]), x)
            || NameAt(rows, producerKind, p) == Some(name);
      }
    }
  }

  lemma SortedNames(executions: seq<ExecutionRow>, producerKind: string)
    requires forall i, j | 0 <= i < j < |executions| :: executions[i].producer != executions[j].producer
    ensures var names := Sorted(ProducerNames(executions, producerKind), TextKey);
            && NoDuplicates(names) && forall n :: n in names <==> n in ProducerNames(executions, producerKind)
  {
    var listed := ProducerNames(executions, producerKind);
    NamesListed(executions, producerKind);
    hide ProducerNames;
    forall x, y | x in listed && y in listed && TextKey(x) == TextKey(y) ensures x == y {
      assert TextKey(x)[0] == TextKey(y)[0];
    }
    SortedIsUnique(listed, TextKey);
    SortedUniqueKeeps(listed, TextKey);
    StrictlySortedDistinct(SortedUnique(listed, TextKey), TextKey);
  }

  function UniqueTotal(report: seq<Contribution>): nat {
    if report == [] then 0 else UniqueTotal(report[..|report| - 1]) + report[|report| - 1].unique
  }

  lemma {:induction false} UniqueTotalIsSum(
      rows: RunRows, producerKind: string, kind: Option<string>, names: seq<string>, report: seq<Contribution>)
    requires |report| == |names|
    requires forall i | 0 <= i < |names| :: report[i] == ContributionOf(rows, producerKind, kind, names[i])
    ensures UniqueTotal(report) == SumUnique(Attribute(rows, producerKind, kind, rows.origins), names)
  {
    hide Attribute, Unique, Observed, Shared, Hits, Resolved;
    if names != [] {
      UniqueTotalIsSum(rows, producerKind, kind, names[..|names| - 1], report[..|report| - 1]);
    }
  }

  /** Every attributed result has one producer or several. */
  lemma LoneOrMultiple(produced: Produced, names: seq<string>)
    requires forall x | x in produced :: produced[x] != {} && forall n | n in produced[x] :: n in names
    ensures |Lone(produced, names)| + |Multiple(produced)| == |produced.Keys|
  {
    forall x | x in produced ensures x in Lone(produced, names) <==> |produced[x]| == 1 {
      var n :| n in produced[x];
      assert n in names;
    }
    assert produced.Keys == Lone(produced, names) + Multiple(produced);
    assert Lone(produced, names) !! Multiple(produced);
  }

  lemma AttributedAreNamed(rows: RunRows, producerKind: string, kind: Option<string>)
    requires UniqueKeys(rows)
    ensures var names := Sorted(ProducerNames(rows.executions, producerKind), TextKey);
            var produced := Attribute(rows, producerKind, kind, rows.origins);
            && NoDuplicates(names)
            && forall x | x in produced :: produced[x] != {} && forall n | n in produced[x] :: n in names
  {
    SortedNames(rows.executions, producerKind);
    ProducersAreNamed(rows, producerKind, kind, rows.origins);
    AttributedHaveNames(rows, producerKind, kind, rows.origins);
    var produced := Attribute(rows, producerKind, kind, rows.origins);
    hide Attribute, Sorted, ProducerNames, UniqueKeys;
    forall x, n | x in produced && n in produced[x] ensures n in ProducerNames(rows.executions, producerKind) {
      assert n in Names(produced, x);
    }
  }

  /** Conservation: the results that one producer alone reported, summed over the report,
      and the results that several reported are together all attributed results. */
  lemma AttributedAreConserved(rows: RunRows, producerKind: string, kind: Option<string>, report: seq<Contribution>)
    requires UniqueKeys(rows)
    requires var names := Sorted(ProducerNames(rows.executions, producerKind), TextKey);
             && |report| == |names|
             && forall i | 0 <= i < |names| :: report[i] == ContributionOf(rows, producerKind, kind, names[i])
    ensures var produced := Attribute(rows, producerKind, kind, rows.origins);
            UniqueTotal(report) + |Multiple(produced)| == |produced.Keys|
  {
    hide *;
    var names := Sorted(ProducerNames(rows.executions, producerKind), TextKey);
    var produced := Attribute(rows, producerKind, kind, rows.origins);
    AttributedAreNamed(rows, producerKind, kind);
    UniqueTotalIsSum(rows, producerKind, kind, names, report);
    UniqueSumsToLone(produced, names);
    LoneOrMultiple(produced, names);
  }

  // ---- per-kind counts ----

  function Added(a: Contribution, b: Contribution): Contribution {
    a.(observed := a.observed + b.observed, unique := a.unique + b.unique, shared := a.shared + b.shared,
       resolved := a.resolved + b.resolved, uniqueResolved := a.uniqueResolved + b.uniqueResolved)
  }

  function SumOverKinds(rows: RunRows, producerKind: string, kinds: seq<string>, name: string): Contribution {
    if kinds == [] then Contribution(name, 0, 0, 0, 0, 0)
    else
      Added(SumOverKinds(rows, producerKind, kinds[..|kinds| - 1], name),
            ContributionOf(rows, producerKind, Some(kinds[|kinds| - 1]), name))
  }

  function OfKinds(xs: set<ResultId>, kinds: seq<string>): set<ResultId> {
    set x | x in xs && x.kind in kinds
  }

  lemma KindSplit(xs: set<ResultId>, kinds: seq<string>, kind: string)
    requires kind !in kinds
    ensures |OfKinds(xs, kinds + [kind])| == |OfKinds(xs, kinds)| + |OfKind(xs, kind)|
  {
    var mine := OfKind(xs, kind);
    assert OfKinds(xs, kinds + [kind]) == OfKinds(xs, kinds) + mine;
    assert OfKinds(xs, kinds) !! mine;
  }

  function OfKind(xs: set<ResultId>, kind: string): set<ResultId> {
    set x | x in xs && x.kind == kind
  }

  /** The five sets that are counted for one producer. */
  datatype Tally = Tally(observed: set<ResultId>, unique: set<ResultId>, shared: set<ResultId>,
                         resolved: set<ResultId>, uniqueResolved: set<ResultId>)

  function TallyOf(rows: RunRows, producerKind: string, kind: Option<string>, name: string): Tally {
    var produced, resolved := Attribute(rows, producerKind, kind, rows.origins), Resolved(rows, kind);
    var observed, unique := Observed(produced, produced.Keys, name), Unique(produced, produced.Keys, name);
    Tally(observed, unique, Shared(produced, produced.Keys, name), observed * resolved, unique * resolved)
  }

  function TallyCounts(t: Tally, name: string): Contribution {
    Contribution(name, |t.observed|, |t.unique|, |t.shared|, |t.resolved|, |t.uniqueResolved|)
  }

  lemma ContributionCounts(rows: RunRows, producerKind: string, kind: Option<string>, name: string)
    ensures ContributionOf(rows, producerKind, kind, name) == TallyCounts(TallyOf(rows, producerKind, kind, name), name)
  {
    hide Attribute, Observed, Unique, Shared, Resolved;
  }

  function TallyOfKinds(t: Tally, kinds: seq<string>): Tally {
    Tally(OfKinds(t.observed, kinds), OfKinds(t.unique, kinds), OfKinds(t.shared, kinds), OfKinds(t.resolved, kinds),
          OfKinds(t.uniqueResolved, kinds))
  }

  lemma ResolvedRestricts(rows: RunRows, kind: string)
    ensures Resolved(rows, Some(kind)) == OfKind(Resolved(rows, None), kind)
  {
    hide FindResult, NameAt;
    forall o | o in rows.origins
      ensures ResolvedBy(rows, Some(kind), o) ==
                var all := ResolvedBy(rows, None, o); if all.Some? && all.value.kind == kind then all else None
    {
    }
    hide ResolvedBy;
    forall x | x in OfKind(Resolved(rows, None), kind) ensures x in Resolved(rows, Some(kind)) {
      var o :| o in rows.origins && ResolvedBy(rows, None, o) == Some(x);
      assert ResolvedBy(rows, Some(kind), o) == Some(x);
    }
    forall x | x in Resolved(rows, Some(kind)) ensures x in OfKind(Resolved(rows, None), kind) {
      var o :| o in rows.origins && ResolvedBy(rows, Some(kind), o) == Some(x);
      assert ResolvedBy(rows, None, o) == Some(x);
    }
  }

  lemma AttributedRestrict(rows: RunRows, producerKind: string, kind: string, name: string)
    ensures var all, some := Attribute(rows, producerKind, None, rows.origins),
              Attribute(rows, producerKind, Some(kind), rows.origins);
            && Observed(some, some.Keys, name) == OfKind(Observed(all, all.Keys, name), kind)
            && Unique(some, some.Keys, name) == OfKind(Unique(all, all.Keys, name), kind)
            && Shared(some, some.Keys, name) == OfKind(Shared(all, all.Keys, name), kind)
  {
    KindRestricts(rows, producerKind, kind, rows.origins);
    hide Attribute;
  }

  /** What is counted for one kind is what is counted, restricted. */
  lemma OneKind(rows: RunRows, producerKind: string, kind: string, name: string)
    ensures var all, some := TallyOf(rows, producerKind, None, name), TallyOf(rows, producerKind, Some(kind), name);
            some == Tally(OfKind(all.observed, kind), OfKind(all.unique, kind), OfKind(all.shared, kind),
                          OfKind(all.resolved, kind), OfKind(all.uniqueResolved, kind))
  {
    AttributedRestrict(rows, producerKind, kind, name);
    ResolvedRestricts(rows, kind);
    hide Attribute, Observed, Unique, Shared, Resolved;
    var all, some := TallyOf(rows, producerKind, None, name), TallyOf(rows, producerKind, Some(kind), name);
    var r := Resolved(rows, None);
    assert OfKind(all.observed, kind) * OfKind(r, kind) == OfKind(all.observed * r, kind);
    assert OfKind(all.unique, kind) * OfKind(r, kind) == OfKind(all.unique * r, kind);
  }

  lemma {:induction false} KindsSumUpTo(rows: RunRows, producerKind: string, kinds: seq<string>, name: string)
    requires NoDuplicates(kinds)
    ensures SumOverKinds(rows, producerKind, kinds, name) ==
              TallyCounts(TallyOfKinds(TallyOf(rows, producerKind, None, name), kinds), name)
  {
    hide TallyOf, ContributionOf, OfKinds, OfKind;
    var all := TallyOf(rows, producerKind, None, name);
    if kinds == [] {
      NoKinds(all);
    } else {
      var before, last := kinds[..|kinds| - 1], kinds[|kinds| - 1];
      assert kinds == before + [last] && last !in before;
      KindsSumUpTo(rows, producerKind, before, name);
      ContributionCounts(rows, producerKind, Some(last), name);
      OneKind(rows, producerKind, last, name);
      KindSplit(all.observed, before, last);
      KindSplit(all.unique, before, last);
      KindSplit(all.shared, before, last);
      KindSplit(all.resolved, before, last);
      KindSplit(all.uniqueResolved, before, last);
    }
  }

  lemma NoKinds(t: Tally)
    ensures TallyOfKinds(t, []) == Tally({}, {}, {}, {}, {})
  {
  }

  lemma {:induction false} AttributedAreResults(rows: RunRows, producerKind: string, kind: Option<string>,
      os: seq<OriginRow>)
    ensures forall x | x in Attribute(rows, producerKind, kind, os) ::
              exists i :: 0 <= i < |rows.results| && rows.results[i].item == x
  {
    if os != [] {
      AttributedAreResults(rows, producerKind, kind, os[..|os| - 1]);
      var p := os[|os| - 1].resultPosition;
      if FindResult(rows.results, p).Some? { FoundResult(rows.results, p); }
      hide FindResult, NameAt;
    }
  }

  /** Counting kind by kind and adding up gives the unfiltered counts, all five of them. */
  lemma KindsSumToAll(rows: RunRows, producerKind: string, kinds: seq<string>, name: string)
    requires NoDuplicates(kinds) && forall i | 0 <= i < |rows.results| :: rows.results[i].item.kind in kinds
    ensures SumOverKinds(rows, producerKind, kinds, name) == ContributionOf(rows, producerKind, None, name)
  {
    hide SumOverKinds, ContributionOf;
    KindsSumUpTo(rows, producerKind, kinds, name);
    ContributionCounts(rows, producerKind, None, name);
    AttributedAreResults(rows, producerKind, None, rows.origins);
    AllOfKinds(rows, producerKind, kinds, name);
  }

  lemma AllOfKinds(rows: RunRows, producerKind: string, kinds: seq<string>, name: string)
    requires forall x | x in Attribute(rows, producerKind, None, rows.origins) :: x.kind in kinds
    ensures var all := TallyOf(rows, producerKind, None, name); TallyOfKinds(all, kinds) == all
  {
    hide Attribute, Resolved;
  }

  // ---- agreement with the counts that were saved ----

  ghost predicate Permuted<T(!new)>(xs: seq<T>, ys: seq<T>) {
    NoDuplicates(xs) && forall x :: x in xs <==> x in ys
  }

  /** A saved run's rows as a query without ORDER BY returns them: in any order. */
  ghost predicate Returned(rules: Rules, r: CompletedResult, rows: RunRows) {
    && Permuted(rows.results, ResultRows(rules, r))
    && Permuted(rows.executions, ExecutionRows(r))
    && Listing(rows.origins, r)
  }

  lemma {:induction false} FindProducerOf(rows: seq<ExecutionRow>, e: ExecutionRow)
    requires e in rows && forall x, y | x in rows && y in rows && x.position == y.position :: x == y
    ensures FindProducer(rows, e.position) == Some(e.producer)
  {
    if rows[|rows| - 1] != e { FindProducerOf(rows[..|rows| - 1], e); }
  }

  lemma {:induction false} FindResultOf(rows: seq<ResultRow>, row: ResultRow)
    requires row in rows && forall x, y | x in rows && y in rows && x.position == y.position :: x == y
    ensures FindResult(rows, row.position) == Some(row.item)
  {
    if rows[|rows| - 1] != row { FindResultOf(rows[..|rows| - 1], row); }
  }

  /** Lookup by position does not depend on the order. */
  lemma ReturnedIsFaithful(rules: Rules, r: CompletedResult, rows: RunRows)
    requires Returned(rules, r, rows)
    ensures Faithful(rows, r)
  {
    hide FindResult, FindProducer, DetailsOf, Listing, NoDuplicates;
    var saved, executions := ResultRows(rules, r), ExecutionRows(r);
    forall i: nat | i < |r.results| ensures FindResult(rows.results, i) == Some(r.results[i]) {
      assert saved[i] in rows.results;
      FindResultOf(rows.results, saved[i]);
    }
    forall p: nat | p < |Producers(r)| ensures FindProducer(rows.executions, p) == Some(Producers(r)[p]) {
      assert executions[p] in rows.executions;
      FindProducerOf(rows.executions, executions[p]);
    }
  }

  lemma NameAtPosition(rows: RunRows, r: CompletedResult, o: OriginRow)
    requires Faithful(rows, r) && Linked(r, o)
    ensures NameAt(rows, "source", o.executionPosition) ==
              if o.executionPosition < |r.sources| then Some(r.sources[o.executionPosition].source) else None
    ensures NameAt(rows, "action", o.executionPosition) ==
              if o.executionPosition < |r.sources| then None
                  else Some(r.actions[o.executionPosition - |r.sources|].action)
    ensures ItemAt(rows, None, o.resultPosition) == Some(r.results[o.resultPosition])
  {
    LinkedInRange(r, o);
    LookupAt(rows, r, o);
    hide Faithful, FindProducer, FindResult;
  }

  lemma SourceLinked(r: CompletedResult, o: OriginRow)
    requires o.resultPosition < |r.results| && o.executionPosition < |r.sources|
    ensures Linked(r, o) <==>
              ResultObservation(r.sources[o.executionPosition].source, r.results[o.resultPosition]) in r.observations
  {
  }

  lemma ListedIsLinked(os: seq<OriginRow>, r: CompletedResult)
    requires Listing(os, r)
    ensures forall o :: o in os <==> Linked(r, o)
    ensures forall o | o in os :: o.resultPosition < |r.results| && o.executionPosition < |r.sources| + |r.actions|
  {
    forall o | o in os ensures o.resultPosition < |r.results| && o.executionPosition < |r.sources| + |r.actions| {
      LinkedInRange(r, o);
    }
  }

  /** A source is attributed exactly the results it observed. */
  lemma SourceAttribution(rules: Rules, r: CompletedResult, rows: RunRows, p: nat, x: ResultId)
    requires Valid(rules, r) && Faithful(rows, r) && Listing(rows.origins, r) && p < |r.sources|
    ensures r.sources[p].source in Names(Attribute(rows, "source", None, rows.origins), x) <==>
              ResultObservation(r.sources[p].source, x) in r.observations
  {
    hide *;
    var name := r.sources[p].source;
    ListedIsLinked(rows.origins, r);
    AttributeExact(rows, "source", rows.origins, x, name);
    if o :| o in rows.origins && Reports(rows, "source", o, x, name) {
      ReportedBySource(rows, r, o, x, name);
    }
    if ResultObservation(name, x) in r.observations {
      ObservedAreResults(rules, r);
      var i :| 0 <= i < |r.results| && r.results[i] == x;
      SourceLinked(r, OriginRow(i, p));
      ReportFor(rows, r, OriginRow(i, p));
    }
  }

  lemma ReportedBySource(rows: RunRows, r: CompletedResult, o: OriginRow, x: ResultId, name: string)
    requires Faithful(rows, r) && Linked(r, o) && Reports(rows, "source", o, x, name)
    ensures ResultObservation(name, x) in r.observations
  {
    NameAtPosition(rows, r, o);
    hide Faithful, NameAt, ItemAt;
  }

  lemma ReportedByAction(rows: RunRows, r: CompletedResult, o: OriginRow, x: ResultId, n: nat)
    requires Faithful(rows, r) && Linked(r, o) && n < |r.actions| && Reports(rows, "action", o, x, r.actions[n].action)
    requires forall i, j | 0 <= i < j < |r.actions| :: r.actions[i].action != r.actions[j].action
    ensures x in r.actions[n].observations
  {
    NameAtPosition(rows, r, o);
    hide Faithful, NameAt, ItemAt;
    assert o.executionPosition >= |r.sources|;
  }

  lemma ReportFor(rows: RunRows, r: CompletedResult, o: OriginRow)
    requires Faithful(rows, r) && Linked(r, o)
    ensures o.resultPosition < |r.results|
    ensures o.executionPosition < |r.sources| ==>
              Reports(rows, "source", o, r.results[o.resultPosition], r.sources[o.executionPosition].source)
    ensures |r.sources| <= o.executionPosition < |r.sources| + |r.actions| ==>
              Reports(rows, "action", o, r.results[o.resultPosition],
                  r.actions[o.executionPosition - |r.sources|].action)
  {
    NameAtPosition(rows, r, o);
    hide Faithful, NameAt, ItemAt;
  }

  /** An action is attributed exactly the results it observed. */
  lemma ActionAttribution(rules: Rules, r: CompletedResult, rows: RunRows, n: nat, x: ResultId)
    requires Valid(rules, r) && Faithful(rows, r) && Listing(rows.origins, r) && n < |r.actions|
    ensures r.actions[n].action in Names(Attribute(rows, "action", None, rows.origins), x) <==>
              x in r.actions[n].observations
  {
    hide *;
    var name := r.actions[n].action;
    ListedIsLinked(rows.origins, r);
    ActionNamesDiffer(rules, r);
    AttributeExact(rows, "action", rows.origins, x, name);
    if o :| o in rows.origins && Reports(rows, "action", o, x, name) {
      ReportedByAction(rows, r, o, x, n);
    }
    if x in r.actions[n].observations {
      FoundInResults(rules, r, n, x);
      var i :| 0 <= i < |r.results| && r.results[i] == x;
      ActionLinked(r, OriginRow(i, |r.sources| + n));
      ReportFor(rows, r, OriginRow(i, |r.sources| + n));
    }
  }

  lemma ObservedAreResults(rules: Rules, r: CompletedResult)
    requires Valid(rules, r)
    ensures forall o | o in r.observations :: o.item in r.results
  {
  }

  lemma FoundInResults(rules: Rules, r: CompletedResult, n: nat, x: ResultId)
    requires Valid(rules, r) && n < |r.actions|
    ensures x in r.actions[n].observations ==> x in r.results
  {
    assert ValidAction(r.results, r.actions[n]);
  }

  lemma {:induction false} DistinctCount<T>(xs: seq<T>)
    requires NoDuplicates(xs)
    ensures |set x | x in xs| == |xs|
  {
    if xs != [] {
      var before := xs[..|xs| - 1];
      DistinctCount(before);
      assert (set x | x in xs) == (set x | x in before) + {xs[|xs| - 1]};
    }
  }

  lemma {:induction false} DistinctItems(xs: seq<ResultObservation>, source: string)
    requires NoDuplicates(xs) && forall o | o in xs :: o.source == source
    ensures |set o | o in xs :: o.item| == |xs|
  {
    if xs != [] {
      var before, last := xs[..|xs| - 1], xs[|xs| - 1];
      DistinctItems(before, source);
      assert xs == before + [last];
      assert (set o | o in xs :: o.item) == (set o | o in before :: o.item) + {last.item};
      forall o | o in before ensures o.item != last.item { assert o == ResultObservation(source, o.item); }
    }
  }

  /** The unfiltered count of a source or an action is the result count that was saved
      with its execution. */
  lemma CountsMatchSaved(rules: Rules, r: CompletedResult, rows: RunRows, e: ExecutionRow)
    requires Valid(rules, r) && Returned(rules, r, rows) && e in rows.executions
    ensures ContributionOf(rows, e.producer.kind, None, e.producer.name).observed == e.resultCount
  {
    hide *;
    ReturnedIsFaithful(rules, r, rows);
    var p := ReturnedExecution(rules, r, rows, e);
    ExecutionAt(r, p);
    if p < |r.sources| { SourceCount(rules, r, rows, p); } else { ActionCount(rules, r, rows, p - |r.sources|); }
  }

  lemma ReturnedExecution(rules: Rules, r: CompletedResult, rows: RunRows, e: ExecutionRow) returns (p: nat)
    requires Returned(rules, r, rows) && e in rows.executions
    ensures Listing(rows.origins, r) && p < |ExecutionRows(r)| && ExecutionRows(r)[p] == e
  {
    assert e in ExecutionRows(r);
    p :| p < |ExecutionRows(r)| && ExecutionRows(r)[p] == e;
  }

  lemma ExecutionAt(r: CompletedResult, p: nat)
    requires p < |ExecutionRows(r)|
    ensures |ExecutionRows(r)| == |r.sources| + |r.actions|
    ensures var e := ExecutionRows(r)[p];
            if p < |r.sources| then e.producer == Producer("source", r.sources[p].source)
                && e.resultCount == r.sources[p].resultCount
            else e.producer == Producer("action", r.actions[p - |r.sources|].action)
                 && e.resultCount == |r.actions[p - |r.sources|].observations|
  {
  }

  lemma SourceCount(rules: Rules, r: CompletedResult, rows: RunRows, p: nat)
    requires Valid(rules, r) && Faithful(rows, r) && Listing(rows.origins, r) && p < |r.sources|
    ensures ContributionOf(rows, "source", None, r.sources[p].source).observed == r.sources[p].resultCount
  {
    var name := r.sources[p].source;
    var produced := Attribute(rows, "source", None, rows.origins);
    hide Valid, Faithful, Listing, Attribute, Group, StrictlySorted, Hits, Unique, Shared, Resolved;
    var group := SourceGroup(rules, r, p);
    DistinctItems(group, name);
    forall x ensures name in Names(produced, x) <==> ResultObservation(name, x) in r.observations {
      SourceAttribution(rules, r, rows, p, x);
    }
    forall x | x in Observed(produced, produced.Keys, name) ensures x in (set o | o in group :: o.item) {
      assert ResultObservation(name, x) in group;
    }
    assert Observed(produced, produced.Keys, name) == (set o | o in group :: o.item);
  }

  lemma SourceGroup(rules: Rules, r: CompletedResult, p: nat) returns (group: seq<ResultObservation>)
    requires Valid(rules, r) && p < |r.sources|
    ensures |group| == r.sources[p].resultCount && NoDuplicates(group)
    ensures forall o :: o in group <==> o in r.observations && o.source == r.sources[p].source
  {
    var name := r.sources[p].source;
    group := Group(r.observations, ObservationSource, name);
    assert r.sources[p] in r.sources && r.sources[p].resultCount == |group|;
    GroupMembers(r.observations, ObservationSource, name);
    GroupSorted(r.observations, ObservationSource, name, ObservationKey);
    StrictlySortedDistinct(group, ObservationKey);
    hide Group, StrictlySorted, ValidActions, ValidVirtualHosts, ValidNetwork, ValidShodan, ValidTakeovers,
      ValidAttributions;
  }

  lemma ActionCount(rules: Rules, r: CompletedResult, rows: RunRows, n: nat)
    requires Valid(rules, r) && Faithful(rows, r) && Listing(rows.origins, r) && n < |r.actions|
    ensures ContributionOf(rows, "action", None, r.actions[n].action).observed == |r.actions[n].observations|
  {
    var name := r.actions[n].action;
    var produced := Attribute(rows, "action", None, rows.origins);
    ValidIsDistinct(rules, r);
    StrictlySortedDistinct(r.actions[n].observations, ResultKey);
    DistinctCount(r.actions[n].observations);
    forall x ensures name in Names(produced, x) <==> x in r.actions[n].observations {
      ActionAttribution(rules, r, rows, n, x);
    }
    hide Valid, Faithful, Listing, Attribute, StrictlySorted, PartsDistinct;
    assert Observed(produced, produced.Keys, name) == set x | x in r.actions[n].observations;
  }
}
