/** The Sourcegraph result stream: an event automaton that must end with one final
    progress event and then done, and a bounded collection of hostnames. */
module SourcegraphStream {
  import opened Wrappers

  /** One parsed record.  wellFormed says whether the payload has the shape its handler
      demands; names are the normalised hostnames met before any fault in the payload. */
  datatype Event =
    | Matches(names: seq<string>, wellFormed: bool)
    | Progress(done: bool, skipped: bool, wellFormed: bool)
    | Done(wellFormed: bool)
    | ErrorEvent
    | Ignored                      // filters, alert
    | Garbage                      // not an event record, or of no known name

  datatype Status = Completed | Partial | Failed | RateLimited

  datatype Reason =
    | InvalidTarget
    | Http(status: int)
    | AccessDenied
    | InvalidResponse
    | ProviderFailure
    | ProviderLimited
    | ResultLimit
    | StreamFailure(reason: string)

  datatype Report = Report(status: Status, reason: Reason)

  datatype Consumed = Fine | ProviderError | Invalid

  predicate WellFormedEvent(e: Event) {
    match e
    case Matches(_, ok) => ok
    case Progress(_, _, ok) => ok
    case Done(ok) => ok
    case ErrorEvent => true
    case Ignored => true
    case Garbage => false
  }

  predicate FinalProgress(e: Event) { e.Progress? && e.wellFormed && e.done }

  predicate NonFinal(e: Event) {
    match e
    case Matches(_, ok) => ok
    case Progress(done, _, ok) => ok && !done
    case Ignored => true
    case _ => false
  }

  /** Any non-final events, then one final progress, then done. */
  predicate ProperStream(events: seq<Event>) {
    var n := |events|;
    && n >= 2 && events[n - 1] == Done(true) && FinalProgress(events[n - 2])
    && forall i | 0 <= i < n - 2 :: NonFinal(events[i])
  }

  predicate HasSuffix(name: string, suffix: string) {
    |name| >= |suffix| && name[|name| - |suffix|..] == suffix
  }

  predicate InScope(name: string, word: string) {
    name != "" && name != word && HasSuffix(name, "." + word)
  }

  /** The in-scope names in order of first appearance. */
  function DistinctInScope(names: seq<string>, word: string): seq<string> {
    if names == [] then []
    else
      var before, name := DistinctInScope(names[..|names| - 1], word), names[|names| - 1];
      if InScope(name, word) && name !in before then before + [name] else before
  }

  function Kept(names: seq<string>, word: string, limit: Option<nat>): seq<string> {
    var all := DistinctInScope(names, word);
    if limit.Some? && limit.value < |all| then all[..limit.value] else all
  }

  predicate Overflows(names: seq<string>, word: string, limit: Option<nat>) {
    limit.Some? && |DistinctInScope(names, word)| > limit.value
  }

  lemma {:induction false} DistinctIsExact(names: seq<string>, word: string)
    ensures forall n :: n in DistinctInScope(names, word) <==> n in names && InScope(n, word)
    ensures forall i, j | 0 <= i < j < |DistinctInScope(names, word)| ::
              DistinctInScope(names, word)[i] != DistinctInScope(names, word)[j]
  {
    if names != [] {
      DistinctIsExact(names[..|names| - 1], word);
      assert names == names[..|names| - 1] + [names[|names| - 1]];
    }
  }

  lemma DistinctStep(names: seq<string>, name: string, word: string)
    ensures DistinctInScope(names + [name], word) ==
              if InScope(name, word) && name !in DistinctInScope(names, word) then DistinctInScope(names, word) + [name]
              else DistinctInScope(names, word)
  {
    assert (names + [name])[..|names|] == names;
  }

  /** One more name joins the kept ones when it is new, in scope and there is room; one
      that finds no room is what makes the collection overflow. */
  lemma KeptStep(names: seq<string>, name: string, word: string, limit: Option<nat>)
    ensures var kept := Kept(names, word, limit);
            var full := limit.Some? && |kept| >= limit.value && name !in kept;
            && Kept(names + [name], word, limit) ==
                 (if InScope(name, word) && name !in kept && !full then kept + [name] else kept)
            && Overflows(names + [name], word, limit) ==
                 (Overflows(names, word, limit) || (InScope(name, word) && full))
  {
    DistinctStep(names, name, word);
    hide InScope, DistinctInScope;
    var all := DistinctInScope(names, word);
    if limit.Some? && limit.value <= |all| {
      assert (all + [name])[..limit.value] == all[..limit.value];
      assert limit.value == |all| ==> all[..limit.value] == all;
    }
  }

  lemma KeptIsDistinct(names: seq<string>, word: string, limit: Option<nat>)
    ensures var kept := Kept(names, word, limit);
            forall i, j | 0 <= i < j < |kept| :: kept[i] != kept[j]
  {
    DistinctIsExact(names, word);
  }

  function Names(events: seq<Event>): seq<string> {
    if events == [] then []
    else Names(events[..|events| - 1]) + NamesOf(events[|events| - 1])
  }

  lemma NamesStep(events: seq<Event>, e: Event)
    ensures Names(events + [e]) == Names(events) + NamesOf(e)
  {
    assert (events + [e])[..|events|] == events;
  }

  function NamesOf(e: Event): seq<string> { if e.Matches? then e.names else [] }

  predicate HasDone(events: seq<Event>) { exists i | 0 <= i < |events| :: events[i].Done? }

  predicate HasFinal(events: seq<Event>) { exists i | 0 <= i < |events| :: FinalProgress(events[i]) }

  /** Refused whatever it holds: done has been seen, or the final progress has. */
  predicate Blocked(sawDone: bool, sawFinal: bool, e: Event) {
    sawDone || (sawFinal && !e.Done?)
  }

  /** What the automaton does with one more event. */
  function Verdict(sawDone: bool, sawFinal: bool, e: Event): Consumed {
    if Blocked(sawDone, sawFinal, e) || !WellFormedEvent(e) then Invalid
    else if e.ErrorEvent? then ProviderError
    else Fine
  }

  /** Every event was taken without complaint by a searcher with these flags. */
  predicate Accepted(sawDone: bool, sawFinal: bool, events: seq<Event>) {
    events == [] ||
    var before := events[..|events| - 1];
    && Accepted(sawDone, sawFinal, before)
    && Verdict(sawDone || HasDone(before), sawFinal || HasFinal(before), events[|events| - 1]) == Fine
  }

  predicate AllNonFinal(events: seq<Event>) {
    forall i | 0 <= i < |events| :: NonFinal(events[i])
  }

  /** The skipped flag of the last final progress event, or the one from before. */
  function FinalSkipped(skipped: bool, events: seq<Event>): bool {
    if events == [] then skipped
    else if FinalProgress(events[|events| - 1]) then events[|events| - 1].skipped
    else FinalSkipped(skipped, events[..|events| - 1])
  }

  /** What one more event does to the flags. */
  lemma FlagsStep(events: seq<Event>, e: Event)
    ensures HasDone(events + [e]) == (HasDone(events) || e.Done?)
    ensures HasFinal(events + [e]) == (HasFinal(events) || FinalProgress(e))
  {
    var all := events + [e];
    assert all[|events|] == e;
    assert forall i | 0 <= i < |events| :: all[i] == events[i];
    if HasDone(events) {
      var i :| 0 <= i < |events| && events[i].Done?;
      assert all[i].Done?;
    }
    if HasFinal(events) {
      var i :| 0 <= i < |events| && FinalProgress(events[i]);
      assert FinalProgress(all[i]);
    }
  }

  lemma SkippedStep(skipped: bool, events: seq<Event>, e: Event)
    ensures FinalSkipped(skipped, events + [e]) ==
              if FinalProgress(e) then e.skipped else FinalSkipped(skipped, events)
  {
    assert (events + [e])[..|events|] == events;
  }

  lemma AcceptedStep(sawDone: bool, sawFinal: bool, events: seq<Event>, e: Event)
    ensures Accepted(sawDone, sawFinal, events + [e]) <==>
              && Accepted(sawDone, sawFinal, events)
              && Verdict(sawDone || HasDone(events), sawFinal || HasFinal(events), e) == Fine
  {
    hide Verdict, HasDone, HasFinal;
    assert (events + [e])[..|events|] == events && (events + [e])[|events|] == e;
  }

  /** What a searcher with these flags takes as a whole stream: a fresh one non-final
      events, one final progress, then done; one that has seen the final progress only
      done; one that has seen both only nothing. */
  predicate ProperFrom(sawDone: bool, sawFinal: bool, events: seq<Event>) {
    if sawDone then sawFinal && events == []
    else if sawFinal then events == [Done(true)]
    else ProperStream(events)
  }

  /** A prefix accepted by a fresh searcher is non-final events, then at most one final
      progress, then at most one done. */
  lemma {:induction false} AcceptedShape(events: seq<Event>)
    requires Accepted(false, false, events)
    ensures !HasDone(events) && !HasFinal(events) ==> AllNonFinal(events)
    ensures !HasDone(events) && HasFinal(events) ==>
              events != [] && FinalProgress(events[|events| - 1]) && AllNonFinal(events[..|events| - 1])
    ensures HasDone(events) && HasFinal(events) ==> ProperStream(events)
  {
    if events != [] {
      var before, e := events[..|events| - 1], events[|events| - 1];
      assert events == before + [e];
      AcceptedShape(before);
      FlagsStep(before, e);
      AcceptedStep(false, false, before, e);
    }
  }

  lemma {:induction false} NonFinalIsAccepted(events: seq<Event>)
    requires AllNonFinal(events)
    ensures Accepted(false, false, events) && !HasDone(events) && !HasFinal(events)
  {
    if events != [] {
      var before, e := events[..|events| - 1], events[|events| - 1];
      assert events == before + [e];
      NonFinalIsAccepted(before);
      FlagsStep(before, e);
      AcceptedStep(false, false, before, e);
    }
  }

  /** Non-final events, then the final progress, then done: all are taken, and both flags
      are up. */
  lemma ProperIsAccepted(body: seq<Event>, final: Event)
    requires AllNonFinal(body) && FinalProgress(final)
    ensures var events := body + [final] + [Done(true)];
            Accepted(false, false, events) && HasDone(events) && HasFinal(events)
  {
    NonFinalIsAccepted(body);
    hide Accepted, HasDone, HasFinal, AllNonFinal;
    FlagsStep(body, final);
    AcceptedStep(false, false, body, final);
    FlagsStep(body + [final], Done(true));
    AcceptedStep(false, false, body + [final], Done(true));
  }

  lemma ProperParts(events: seq<Event>)
    requires ProperStream(events)
    ensures var n := |events|;
            && n >= 2 && AllNonFinal(events[..n - 2]) && FinalProgress(events[n - 2])
            && events == events[..n - 2] + [events[n - 2]] + [Done(true)]
  {
    hide FinalProgress, NonFinal;
  }

  /** The automaton accepts a stream and ends with both flags up exactly when the stream
      is non-final events, one final progress, then done. */
  lemma ProperIffAccepted(events: seq<Event>)
    ensures Accepted(false, false, events) && HasDone(events) && HasFinal(events) <==> ProperStream(events)
  {
    hide *;
    if ProperStream(events) {
      ProperParts(events);
      ProperIsAccepted(events[..|events| - 2], events[|events| - 2]);
    }
    if Accepted(false, false, events) && HasDone(events) && HasFinal(events) {
      AcceptedShape(events);
    }
  }

  /** The report of a proper stream comes from its one final progress event. */
  lemma ProperSkipped(events: seq<Event>, skipped: bool)
    requires ProperStream(events)
    ensures FinalSkipped(skipped, events) == events[|events| - 2].skipped
  {
    var before := events[..|events| - 1];
    assert before[|before| - 1] == events[|events| - 2];
  }

  /** Once both flags are up nothing more is taken. */
  lemma AfterDone(sawFinal: bool, events: seq<Event>)
    requires events != []
    ensures !Accepted(true, sawFinal, events)
    decreases |events|
  {
    if |events| > 1 { AfterDone(sawFinal, events[..|events| - 1]); }
  }

  lemma OnlyDone(e: Event, hasDone: bool, hasFinal: bool)
    ensures Verdict(false || hasDone, true || hasFinal, e) == Fine <==> !hasDone && e == Done(true)
  {
  }

  /** After the final progress only done is taken, once. */
  lemma {:induction false} AfterFinal(events: seq<Event>)
    ensures Accepted(false, true, events) <==> events == [] || events == [Done(true)]
  {
    hide Verdict, HasFinal, HasDone;
    if events != [] {
      var before, e := events[..|events| - 1], events[|events| - 1];
      assert events == before + [e];
      AfterFinal(before);
      OnlyDone(e, HasDone(before), HasFinal(before));
      NoneOrDone(before);
      if before == [] { assert events == [e]; }
    }
  }

  lemma NoneOrDone(events: seq<Event>)
    ensures events == [] ==> !HasDone(events)
    ensures events == [Done(true)] ==> HasDone(events)
  {
    if events == [Done(true)] { assert events[0].Done?; }
  }

  /** The same from any flags: taken without complaint and ending with both flags up. */
  lemma ProperFromIffAccepted(sawDone: bool, sawFinal: bool, events: seq<Event>)
    ensures Accepted(sawDone, sawFinal, events) && (sawDone || HasDone(events)) && (sawFinal || HasFinal(events))
       <==> ProperFrom(sawDone, sawFinal, events)
  {
    if sawDone {
      if events != [] { AfterDone(sawFinal, events); }
    } else if sawFinal {
      AfterFinal(events);
      if events == [Done(true)] { assert events[0].Done?; }
    } else {
      ProperIffAccepted(events);
    }
  }

  /** A used searcher judges every stream as a fresh one exactly when neither flag is up. */
  lemma ReusableIffFlagsDown(sawDone: bool, sawFinal: bool)
    ensures (forall events :: ProperFrom(sawDone, sawFinal, events) <==> ProperStream(events))
              <==> !sawDone && !sawFinal
  {
    var proper := [Progress(true, false, true), Done(true)];
    assert ProperStream(proper) by { assert FinalProgress(proper[0]); }
    if sawDone || sawFinal { assert !ProperFrom(sawDone, sawFinal, proper); }
  }

  /** Where the whole stream is accepted, taking any prefix of it raised no complaint. */
  lemma {:induction false} PrefixAccepted(sawDone: bool, sawFinal: bool, events: seq<Event>, k: nat)
    requires Accepted(sawDone, sawFinal, events) && k <= |events|
    ensures Accepted(sawDone, sawFinal, events[..k])
  {
    if k < |events| {
      PrefixAccepted(sawDone, sawFinal, events[..|events| - 1], k);
      assert events[..|events| - 1][..k] == events[..k];
    } else {
      assert events[..k] == events;
    }
  }

  /** Nothing that was taken without complaint would have raised one. */
  lemma AcceptedIsFine(sawDone: bool, sawFinal: bool, events: seq<Event>, k: nat, n: nat)
    requires k < n <= |events| && Accepted(sawDone, sawFinal, events[..n])
    ensures Verdict(sawDone || HasDone(events[..k]), sawFinal || HasFinal(events[..k]), events[k]) == Fine
  {
    hide Verdict, HasDone, HasFinal, Accepted;
    PrefixAccepted(sawDone, sawFinal, events[..n], k + 1);
    assert events[..n][..k + 1] == events[..k] + [events[k]];
    AcceptedStep(sawDone, sawFinal, events[..k], events[k]);
  }

  /** A search ends at its first complaint, or takes every event; in a stream that is not
      proper there is a complaint, or a flag is missing at the end. */
  lemma RefusedIffImproper(sawDone: bool, sawFinal: bool, events: seq<Event>, used: nat)
    requires used <= |events| && Accepted(sawDone, sawFinal, events[..used])
    requires used < |events| ==>
               Verdict(sawDone || HasDone(events[..used]), sawFinal || HasFinal(events[..used]), events[used]) != Fine
    ensures ProperFrom(sawDone, sawFinal, events) <==>
              used == |events| && (sawDone || HasDone(events)) && (sawFinal || HasFinal(events))
  {
    ProperFromIffAccepted(sawDone, sawFinal, events);
    assert events[..|events|] == events;
    if ProperFrom(sawDone, sawFinal, events) && used < |events| {
      AcceptedIsFine(sawDone, sawFinal, events, used, |events|);
    }
  }

  /** The event is the first a search complains of, and reports an error of the provider:
      nothing but non-final events came before it, in this search or an earlier one. */
  predicate ErrorFirst(sawDone: bool, sawFinal: bool, events: seq<Event>, k: int) {
    && !sawDone && !sawFinal && 0 <= k < |events| && events[k].ErrorEvent?
    && forall i | 0 <= i < k :: NonFinal(events[i])
  }

  /** Up to its first complaint a search has flags exactly from the events it took. */
  lemma TakenThenRefused(sawDone: bool, sawFinal: bool, events: seq<Event>, used: nat, k: nat)
    requires used <= |events| && k < |events| && Accepted(sawDone, sawFinal, events[..used])
    requires used < |events| ==>
               Verdict(sawDone || HasDone(events[..used]), sawFinal || HasFinal(events[..used]), events[used]) != Fine
    requires Accepted(sawDone, sawFinal, events[..k])
    requires Verdict(sawDone || HasDone(events[..k]), sawFinal || HasFinal(events[..k]), events[k]) != Fine
    ensures used == k
  {
    hide Verdict, HasDone, HasFinal, Accepted;
    if used > k {
      AcceptedIsFine(sawDone, sawFinal, events, k, used);
    } else if used < k {
      AcceptedIsFine(sawDone, sawFinal, events, used, k);
    }
  }

  /** Which complaint ends a search: an error of the provider exactly when one comes first. */
  lemma ErrorFirstIff(sawDone: bool, sawFinal: bool, events: seq<Event>, used: nat)
    requires used <= |events| && Accepted(sawDone, sawFinal, events[..used])
    requires used < |events| ==>
               Verdict(sawDone || HasDone(events[..used]), sawFinal || HasFinal(events[..used]), events[used]) != Fine
    ensures (used < |events| &&
              Verdict(sawDone || HasDone(events[..used]), sawFinal || HasFinal(events[..used]), events[used])
                == ProviderError)
       <==> exists k :: ErrorFirst(sawDone, sawFinal, events, k)
  {
    if used < |events|
       && Verdict(sawDone || HasDone(events[..used]), sawFinal || HasFinal(events[..used]), events[used])
            == ProviderError {
      AcceptedShape(events[..used]);
      assert forall i | 0 <= i < used :: events[..used][i] == events[i];
      assert ErrorFirst(sawDone, sawFinal, events, used);
    }
    if k :| ErrorFirst(sawDone, sawFinal, events, k) {
      assert forall i | 0 <= i < k :: events[..k][i] == events[i];
      NonFinalIsAccepted(events[..k]);
      TakenThenRefused(sawDone, sawFinal, events, used, k);
    }
  }

  lemma FineIsFree(sawDone: bool, sawFinal: bool, e: Event)
    ensures Verdict(sawDone, sawFinal, e) == Fine ==> !Blocked(sawDone, sawFinal, e)
  {
  }

  lemma NothingTaken(sawDone: bool, sawFinal: bool, skipped: bool, events: seq<Event>)
    ensures Accepted(sawDone, sawFinal, events[..0]) && !HasDone(events[..0]) && !HasFinal(events[..0])
    ensures FinalSkipped(skipped, events[..0]) == skipped && Names(events[..0]) == []
  {
  }

  class SearchSourcegraph {
    const word: string
    const limit: Option<nat>
    var totalHosts: set<string>
    var sawDone: bool
    var sawTerminalProgress: bool
    var finalProgressSkipped: bool
    var resultLimitReached: bool
    /** Every name met so far, in all searches. */
    ghost var met: seq<string>

    constructor (word: string, limit: Option<nat>)
      ensures this.word == word && this.limit == limit && Valid() && met == []
      ensures !sawDone && !sawTerminalProgress && !finalProgressSkipped
    {
      this.word, this.limit := word, limit;
      totalHosts, met := {}, [];
      sawDone, sawTerminalProgress, finalProgressSkipped, resultLimitReached := false, false, false, false;
    }

    ghost function HostsOf(names: seq<string>): set<string> { set n | n in Kept(names, word, limit) }

    /** The hosts kept are those a collector of the names met keeps. */
    ghost predicate Valid()
      reads this
    {
      && totalHosts == HostsOf(met)
      && resultLimitReached == Overflows(met, word, limit)
    }

    lemma KeepName(name: string)
      requires Valid()
      ensures var full := limit.Some? && |totalHosts| >= limit.value && name !in totalHosts;
              && HostsOf(met + [name]) ==
                   (if InScope(name, word) && !full then totalHosts + {name} else totalHosts)
              && Overflows(met + [name], word, limit) == (resultLimitReached || (InScope(name, word) && full))
    {
      KeptStep(met, name, word, limit);
      KeptIsDistinct(met, word, limit);
      SizeOfDistinct(Kept(met, word, limit));
      hide Kept, Overflows, InScope;
    }

    /** Under the target, and not the target itself. */
    method Wanted(hostname: string) returns (wanted: bool)
      ensures wanted == InScope(hostname, word)
    {
      var suffix := "." + word;
      wanted := hostname != "" && hostname != word && |hostname| >= |suffix|
          && hostname[|hostname| - |suffix|..] == suffix;
    }

    method AddName(hostname: string)
      requires Valid()
      modifies this`totalHosts, this`resultLimitReached, this`met
      ensures Valid() && met == old(met) + [hostname]
    {
      KeepName(hostname);
      hide HostsOf, Overflows, InScope;
      var wanted := Wanted(hostname);
      if wanted {
        if limit.Some? && |totalHosts| >= limit.value && hostname !in totalHosts {
          resultLimitReached := true;
        } else {
          totalHosts := totalHosts + {hostname};
        }
      }
      met := met + [hostname];
    }

    method AddContent(found: seq<string>)
      requires Valid()
      modifies this`totalHosts, this`resultLimitReached, this`met
      ensures Valid() && met == old(met) + found
    {
      hide Valid;
      for i := 0 to |found|
        invariant Valid() && met == old(met) + found[..i]
      {
        AddName(found[i]);
      }
    }

    /** What is done with one event.  The names of a matches event are kept up to its
        first fault. */
    method ConsumeEvent(e: Event) returns (r: Consumed)
      requires Valid()
      modifies this
      ensures Valid()
      ensures r == Verdict(old(sawDone), old(sawTerminalProgress), e)
      ensures met == old(met) + if Blocked(old(sawDone), old(sawTerminalProgress), e) then [] else NamesOf(e)
      ensures sawDone == (old(sawDone) || (r == Fine && e.Done?))
      ensures sawTerminalProgress == (old(sawTerminalProgress) || (r == Fine && FinalProgress(e)))
      ensures finalProgressSkipped == if r == Fine && FinalProgress(e) then e.skipped else old(finalProgressSkipped)
    {
      if sawDone { return Invalid; }
      if sawTerminalProgress && !e.Done? { return Invalid; }
      match e
      case Matches(names, wellFormed) =>
        AddContent(names);
        return if wellFormed then Fine else Invalid;
      case Progress(done, skipped, wellFormed) =>
        if !wellFormed { return Invalid; }
        if done {
          sawTerminalProgress := true;
          finalProgressSkipped := skipped;
        }
        return Fine;
      case Done(wellFormed) =>
        if !wellFormed { return Invalid; }
        sawDone := true;
        return Fine;
      case ErrorEvent => return ProviderError;
      case Ignored => return Fine;
      case Garbage => return Invalid;
    }

    /** The report for a 2xx answer whose body holds these events and ends with this
        framing failure, if any, to a searcher that had these flags. */
    ghost predicate Explains(
        d: bool, f: bool, skipped: bool, events: seq<Event>, failure: Option<string>, used: nat,
        report: Option<Report>)
      requires used <= |events|
      reads this
    {
      if used < |events| then
        var bad := Verdict(d || HasDone(events[..used]), f || HasFinal(events[..used]), events[used]);
        && bad != Fine
        && report == Some(Report(Failed, if bad == ProviderError then ProviderFailure else InvalidResponse))
      else if failure.Some? then
        report == Some(Report(Failed, StreamFailure(failure.value)))
      else if !ProperFrom(d, f, events) then
        report == Some(Report(Failed, InvalidResponse))
      else if FinalSkipped(skipped, events) then
        report == Some(Report(Partial, ProviderLimited))
      else if Overflows(met, word, limit) then
        report == Some(Report(Completed, ResultLimit))
      else
        report == None
    }

    /** events are the records of the body, failure the framing error that ends it, if
        any.  used counts the events taken without complaint.  The flags are never reset:
        a searcher that was used before starts with those its earlier searches left. */
    method DoSearch(status: int, events: seq<Event>, failure: Option<string>)
      returns (report: Option<Report>, used: nat)
      requires Valid()
      modifies this
      ensures Valid() && used <= |events| && Accepted(old(sawDone), old(sawTerminalProgress), events[..used])
      ensures sawDone == (old(sawDone) || HasDone(events[..used]))
      ensures sawTerminalProgress == (old(sawTerminalProgress) || HasFinal(events[..used]))
      ensures finalProgressSkipped == FinalSkipped(old(finalProgressSkipped), events[..used])
      ensures word == "" ==> report == Some(Report(Failed, InvalidTarget)) && used == 0 && met == old(met)
      ensures word != "" && !(200 <= status < 300) ==>
                && used == 0 && met == old(met)
                && report == Some(if status == 429 then Report(RateLimited, Http(429))
                                  else if status == 401 || status == 403 then Report(Failed, AccessDenied)
                                  else Report(Failed, Http(status)))
      ensures word != "" && 200 <= status < 300 ==>
                && Explains(old(sawDone), old(sawTerminalProgress), old(finalProgressSkipped), events, failure, used,
                    report)
                && (used == |events| ==> met == old(met) + Names(events))
                && (used < |events| ==>
                      met == old(met) + Names(events[..used]) +
                        if Blocked(old(sawDone) || HasDone(events[..used]),
                                   old(sawTerminalProgress) || HasFinal(events[..used]), events[used])
                        then [] else NamesOf(events[used]))
                && (report == Some(Report(Failed, ProviderFailure))
                    <==> exists k :: ErrorFirst(old(sawDone), old(sawTerminalProgress), events, k))
                && (failure.None? ==>
                      (report in {Some(Report(Failed, InvalidResponse)), Some(Report(Failed, ProviderFailure))}
                       <==> !ProperFrom(old(sawDone), old(sawTerminalProgress), events)))
    {
      hide Accepted, HasDone, HasFinal, FinalSkipped, Names, ProperFrom, ProperStream, Valid, Verdict, Overflows,
        ErrorFirst, Blocked, NamesOf;
      ghost var d, f, skipped := sawDone, sawTerminalProgress, finalProgressSkipped;
      NothingTaken(d, f, skipped, events);
      used := 0;
      if word == "" { return Some(Report(Failed, InvalidTarget)), 0; }
      if status == 429 { return Some(Report(RateLimited, Http(429))), 0; }
      if status == 401 || status == 403 { return Some(Report(Failed, AccessDenied)), 0; }
      if !(200 <= status < 300) { return Some(Report(Failed, Http(status))), 0; }
      while used < |events|
        invariant used <= |events| && Accepted(d, f, events[..used]) && Valid()
        invariant sawDone == (d || HasDone(events[..used])) && sawTerminalProgress == (f || HasFinal(events[..used]))
        invariant finalProgressSkipped == FinalSkipped(skipped, events[..used])
        invariant met == old(met) + Names(events[..used])
      {
        ghost var before := events[..used];
        FlagsStep(before, events[used]);
        SkippedStep(skipped, before, events[used]);
        AcceptedStep(d, f, before, events[used]);
        NamesStep(before, events[used]);
        FineIsFree(sawDone, sawTerminalProgress, events[used]);
        assert events[..used + 1] == before + [events[used]];
        var r := ConsumeEvent(events[used]);
        if r != Fine {
          RefusedIffImproper(d, f, events, used);
          ErrorFirstIff(d, f, events, used);
          return Some(Report(Failed, if r == ProviderError then ProviderFailure else InvalidResponse)), used;
        }
        used := used + 1;
      }
      assert events[..used] == events;
      RefusedIffImproper(d, f, events, used);
      ErrorFirstIff(d, f, events, used);
      if failure.Some? { return Some(Report(Failed, StreamFailure(failure.value))), used; }
      LimitFlag();
      if !sawDone || !sawTerminalProgress {
        report := Some(Report(Failed, InvalidResponse));
      } else if finalProgressSkipped {
        report := Some(Report(Partial, ProviderLimited));
      } else if resultLimitReached {
        report := Some(Report(Completed, ResultLimit));
      } else {
        report := None;
      }
    }

    lemma LimitFlag()
      requires Valid()
      ensures resultLimitReached == Overflows(met, word, limit)
    {
    }
  }

  lemma {:induction false} SizeOfDistinct(xs: seq<string>)
    requires forall i, j | 0 <= i < j < |xs| :: xs[i] != xs[j]
    ensures |set x | x in xs| == |xs|
  {
    if xs != [] {
      var rest := xs[1..];
      SizeOfDistinct(rest);
      assert (set x | x in xs) == (set x | x in rest) + {xs[0]};
      assert xs[0] !in rest;
    }
  }
}
