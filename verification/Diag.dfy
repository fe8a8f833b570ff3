/** The process-wide logger selection (crates/core/src/diag.rs): an atomic mark and a sink cell,
    written and read in separate steps by any number of overlapping calls. */
module Diag {
  import opened Prelude

  datatype Logger = Tracing | Sink(id: nat)

  /** The values of `SELECTED`. */
  datatype Mark = NONE | TRACING | SINK

  datatype Call = Select(logger: Logger) | Read

  /** How far a call has come. A sink selection has two writes and a read up to two loads;
      `Halfway` is between them. */
  datatype Progress = Begun | Halfway | Done(answer: Option<Logger>) | Returned(answer: Option<Logger>)

  datatype Active = Active(call: Call, at: Progress)

  datatype Event = Begin(id: nat, call: Call) | Step(id: nat) | Return(id: nat)

  datatype State = State(selected: Mark, cell: Option<nat>, calls: map<nat, Active>)

  const INIT := State(NONE, None, map[])

  /** One atomic access of a call to the mark or to the cell, with where it leaves the call. */
  function Access(s: State, a: Active): (r: (State, Progress))
    requires a.at.Begun? || a.at.Halfway?
    ensures r.0.calls == s.calls
  {
    match a.call
    case Select(Tracing) => (s.(selected := TRACING), Done(None))
    case Select(Sink(sink)) =>
      if a.at.Begun? then (s.(cell := Some(sink)), Halfway) else (s.(selected := SINK), Done(None))
    case Read =>
      if a.at.Halfway? then (s, Done(if s.cell.Some? then Some(Sink(s.cell.value)) else None))
      else match s.selected
        case NONE => (s, Done(None))
        case TRACING => (s, Done(Some(Tracing)))
        case SINK => (s, Halfway)
  }

  predicate Enabled(s: State, e: Event)
  {
    match e
    case Begin(id, _) => id !in s.calls
    case Step(id) => id in s.calls && (s.calls[id].at.Begun? || s.calls[id].at.Halfway?)
    case Return(id) => id in s.calls && s.calls[id].at.Done?
  }

  function Next(s: State, e: Event): State
    requires Enabled(s, e)
  {
    match e
    case Begin(id, call) => s.(calls := s.calls[id := Active(call, Begun)])
    case Step(id) =>
      var (after, at) := Access(s, s.calls[id]);
      after.(calls := s.calls[id := s.calls[id].(at := at)])
    case Return(id) => s.(calls := s.calls[id := s.calls[id].(at := Returned(s.calls[id].at.answer))])
  }

  /** An interleaving of calls: the events, each one the state before it allows, and the states
      they lead through. */
  datatype Run = Run(events: seq<Event>, states: seq<State>)

  ghost predicate Interleaving(r: Run)
  {
    && |r.states| == |r.events| + 1
    && r.states[0] == INIT
    && forall n | 0 <= n < |r.events| :: Follows(r, n)
  }

  ghost predicate Follows(r: Run, n: nat)
    requires n < |r.events| && n + 1 < |r.states|
  {
    Enabled(r.states[n], r.events[n]) && r.states[n + 1] == Next(r.states[n], r.events[n])
  }

  /** The shared variables and the calls in progress, taking one event at a time. */
  class Process {
    var selected: Mark
    var cell: Option<nat>
    var calls: map<nat, Active>

    function View(): State
      reads this
    {
      State(selected, cell, calls)
    }

    constructor ()
      ensures View() == INIT
    {
      selected, cell, calls := NONE, None, map[];
    }

    method Perform(e: Event)
      requires Enabled(View(), e)
      modifies this
      ensures View() == Next(old(View()), e)
    {
      match e {
        case Begin(id, call) => calls := calls[id := Active(call, Begun)];
        case Return(id) => calls := calls[id := calls[id].(at := Returned(calls[id].at.answer))];
        case Step(id) =>
          var a := calls[id];
          var at := Done(None);
          match a.call {
            case Select(logger) =>
              if logger.Tracing? {
                selected := TRACING;
              } else if a.at.Begun? {
                cell, at := Some(logger.id), Halfway;
              } else {
                selected := SINK;
              }
            case Read =>
              if a.at.Halfway? {
                at := Done(if cell.Some? then Some(Sink(cell.value)) else None);
              } else if selected == TRACING {
                at := Done(Some(Tracing));
              } else if selected == SINK {
                at := Halfway;
              }
          }
          calls := calls[id := a.(at := at)];
      }
    }

    method Schedule(ghost r: Run, events: seq<Event>)
      requires View() == INIT && Interleaving(r) && r.events == events
      modifies this
      ensures View() == r.states[|events|]
    {
      for n := 0 to |events|
        invariant View() == r.states[n]
      {
        assert Follows(r, n);
        Perform(events[n]);
      }
    }
  }

  // What every interleaving keeps

  predicate Finished(at: Progress) { at.Done? || at.Returned? }

  ghost predicate Chosen(s: State, logger: Logger)
  {
    exists id :: id in s.calls && s.calls[id].call == Select(logger)
  }

  /** A mark that names a sink has one to name; once a selection finished the mark is set; what
      the shared variables and the answers name was selected by a call that has begun. */
  ghost predicate Invariant(s: State)
  {
    && (s.selected == SINK ==> s.cell.Some?)
    && (s.selected == TRACING ==> Chosen(s, Tracing))
    && (s.cell.Some? ==> Chosen(s, Sink(s.cell.value)))
    && forall id | id in s.calls ::
      var a := s.calls[id];
      && (a.at.Halfway? ==> s.cell.Some?)
      && (a.call.Select? && Finished(a.at) ==> s.selected != NONE)
      && (Finished(a.at) && a.at.answer.Some? ==> Chosen(s, a.at.answer.value))
  }

  lemma ChosenStays(s: State, e: Event, logger: Logger)
    requires Enabled(s, e) && Chosen(s, logger)
    ensures Chosen(Next(s, e), logger)
  {
    var id :| id in s.calls && s.calls[id].call == Select(logger);
    assert Next(s, e).calls[id].call == Select(logger);
  }

  lemma StepKeepsInvariant(s: State, e: Event)
    requires Enabled(s, e) && Invariant(s)
    ensures Invariant(Next(s, e))
  {
    var t := Next(s, e);
    forall logger | Chosen(s, logger) ensures Chosen(t, logger) {
      ChosenStays(s, e, logger);
    }
    if e.Step? {
      var a := s.calls[e.id];
      assert t.calls[e.id].call == a.call;
      assert a.call.Select? ==> Chosen(s, a.call.logger);
    }
  }

  lemma {:induction false} InvariantThroughout(r: Run, n: nat)
    requires Interleaving(r) && n <= |r.events|
    ensures Invariant(r.states[n])
  {
    if n > 0 {
      InvariantThroughout(r, n - 1);
      assert Follows(r, n - 1);
      StepKeepsInvariant(r.states[n - 1], r.events[n - 1]);
    }
  }

  /** A call keeps its identity, a finished one stays so, and the mark once set stays set. */
  lemma {:induction false} CallStays(r: Run, m: nat, n: nat, id: nat)
    requires Interleaving(r) && m <= n <= |r.events| && id in r.states[m].calls
    ensures id in r.states[n].calls && r.states[n].calls[id].call == r.states[m].calls[id].call
    ensures Finished(r.states[m].calls[id].at) ==> Finished(r.states[n].calls[id].at)
  {
    if m < n {
      CallStays(r, m, n - 1, id);
      assert Follows(r, n - 1);
    }
  }

  /** Every call of a state began at one earlier event. */
  lemma {:induction false} BeganAt(r: Run, n: nat, id: nat) returns (i: nat)
    requires Interleaving(r) && n <= |r.events| && id in r.states[n].calls
    ensures i < n && r.events[i] == Begin(id, r.states[n].calls[id].call)
  {
    assert Follows(r, n - 1);
    if id in r.states[n - 1].calls {
      i := BeganAt(r, n - 1, id);
    } else {
      i := n - 1;
    }
  }

  /** The mark is never `SINK` while the cell is empty. */
  lemma SinkMarkHasASink(r: Run, n: nat)
    requires Interleaving(r) && n <= |r.events|
    ensures r.states[n].selected == SINK ==> r.states[n].cell.Some?
  {
    InvariantThroughout(r, n);
  }

  /** What call `id` answers when the event at `k` returns it. */
  function AnswerAt(r: Run, k: nat, id: nat): Option<Logger>
    requires k < |r.states| && id in r.states[k].calls && r.states[k].calls[id].at.Done?
  {
    r.states[k].calls[id].at.answer
  }

  ghost predicate ReturnsAt(r: Run, k: nat, id: nat)
  {
    && Interleaving(r) && k < |r.events| && r.events[k] == Return(id)
    && id in r.states[k].calls && r.states[k].calls[id].at.Done?
  }

  /** Every answer names a logger whose selection had begun. */
  lemma AnswerWasSelected(r: Run, k: nat, id: nat)
    requires ReturnsAt(r, k, id)
    ensures AnswerAt(r, k, id).Some? ==>
      exists i, w :: 0 <= i < k && r.events[i] == Begin(w, Select(AnswerAt(r, k, id).value))
  {
    InvariantThroughout(r, k);
    var s := r.states[k];
    var answer := s.calls[id].at.answer;
    if answer.Some? {
      var w :| w in s.calls && s.calls[w].call == Select(answer.value);
      var i := BeganAt(r, k, w);
    }
  }

  /** While a read that began with the mark set is under way, it has not answered `None`. */
  lemma {:induction false} ReadStaysAnswered(r: Run, j: nat, n: nat, id: nat)
    requires Interleaving(r) && j < n <= |r.events|
    requires r.events[j] == Begin(id, Read) && r.states[j].selected != NONE
    ensures var s := r.states[n];
      && s.selected != NONE && id in s.calls && s.calls[id].call.Read?
      && (Finished(s.calls[id].at) ==> s.calls[id].at.answer.Some?)
  {
    assert Follows(r, n - 1);
    InvariantThroughout(r, n - 1);
    if j + 1 < n {
      ReadStaysAnswered(r, j, n - 1, id);
    }
  }

  /** No read that starts after some selection returned answers `None`. */
  lemma ReadAfterSelectionAnswers(r: Run, i: nat, j: nat, k: nat, w: nat, id: nat)
    requires i < j < k && ReturnsAt(r, i, w) && ReturnsAt(r, k, id)
    requires r.states[i].calls[w].call.Select? && r.events[j] == Begin(id, Read)
    ensures AnswerAt(r, k, id).Some?
  {
    CallStays(r, i, j, w);
    InvariantThroughout(r, j);
    ReadStaysAnswered(r, j, k, id);
  }

  /** The shared variables are as a finished selection of `logger` leaves them. */
  ghost predicate Decided(s: State, logger: Logger)
  {
    && s.selected == (if logger.Tracing? then TRACING else SINK)
    && (logger.Sink? ==> s.cell == Some(logger.id))
  }

  ghost predicate OthersFinished(s: State, w: nat)
  {
    forall id | id in s.calls && id != w && s.calls[id].call.Select? :: Finished(s.calls[id].at)
  }

  /** The selection `w` of `logger`, alone: what it has done so far is what is in place. */
  ghost predicate Alone(s: State, w: nat, logger: Logger)
  {
    && w in s.calls && s.calls[w].call == Select(logger) && OthersFinished(s, w)
    && (s.calls[w].at.Halfway? ==> logger.Sink? && s.cell == Some(logger.id))
    && (Finished(s.calls[w].at) ==> Decided(s, logger))
  }

  lemma StepKeepsAlone(s: State, e: Event, w: nat, logger: Logger)
    requires Alone(s, w, logger) && Enabled(s, e) && !(e.Begin? && e.call.Select?)
    ensures Alone(Next(s, e), w, logger)
  {
  }

  /** `w` starts at `i` with every earlier selection finished, and no selection starts after it. */
  ghost predicate Undisturbed(r: Run, i: nat, w: nat, logger: Logger)
  {
    && Interleaving(r) && i < |r.events|
    && r.events[i] == Begin(w, Select(logger)) && OthersFinished(r.states[i], w)
    && forall m | i < m < |r.events| :: !(r.events[m].Begin? && r.events[m].call.Select?)
  }

  lemma {:induction false} UndisturbedStaysAlone(r: Run, i: nat, n: nat, w: nat, logger: Logger)
    requires Undisturbed(r, i, w, logger) && i < n <= |r.events|
    ensures Alone(r.states[n], w, logger)
  {
    assert Follows(r, n - 1);
    if i + 1 < n {
      UndisturbedStaysAlone(r, i, n - 1, w, logger);
      StepKeepsAlone(r.states[n - 1], r.events[n - 1], w, logger);
    }
  }

  // Once every selection is finished

  /** What the shared variables name. */
  function Named(s: State): Option<Logger>
  {
    match s.selected
    case NONE => None
    case TRACING => Some(Tracing)
    case SINK => if s.cell.Some? then Some(Sink(s.cell.value)) else None
  }

  ghost predicate AllFinished(s: State)
  {
    forall id | id in s.calls && s.calls[id].call.Select? :: Finished(s.calls[id].at)
  }

  /** From `m` on no selection is under way: those begun are finished, and none begins. */
  ghost predicate Quiescent(r: Run, m: nat)
  {
    && Interleaving(r) && m <= |r.events| && AllFinished(r.states[m])
    && forall n | m <= n < |r.events| :: !(r.events[n].Begin? && r.events[n].call.Select?)
  }

  /** The shared variables stay as they are. */
  lemma {:induction false} QuiescentStays(r: Run, m: nat, n: nat)
    requires Quiescent(r, m) && m <= n <= |r.events|
    ensures r.states[n].selected == r.states[m].selected && r.states[n].cell == r.states[m].cell
    ensures AllFinished(r.states[n])
  {
    if m < n {
      QuiescentStays(r, m, n - 1);
      assert Follows(r, n - 1);
    }
  }

  lemma {:induction false} QuietReadStays(r: Run, m: nat, j: nat, n: nat, id: nat)
    requires Quiescent(r, m) && m <= j < n <= |r.events| && r.events[j] == Begin(id, Read)
    ensures var s := r.states[n];
      && id in s.calls && s.calls[id].call.Read?
      && (s.calls[id].at.Halfway? ==> r.states[m].selected == SINK)
      && (Finished(s.calls[id].at) ==> s.calls[id].at.answer == Named(r.states[m]))
  {
    assert Follows(r, n - 1);
    if j + 1 < n {
      QuietReadStays(r, m, j, n - 1, id);
    }
    QuiescentStays(r, m, n - 1);
  }

  /** The event at `n` stores `mark` in the mark: a tracing selection's only write, or a sink
      selection's second. */
  ghost predicate StoresMark(r: Run, n: nat, mark: Mark)
  {
    && n < |r.events| && n < |r.states| && r.events[n].Step? && r.events[n].id in r.states[n].calls
    && var a := r.states[n].calls[r.events[n].id];
      || (a.call == Select(Tracing) && mark == TRACING)
      || (a.call.Select? && a.call.logger.Sink? && a.at.Halfway? && mark == SINK)
  }

  /** The event at `n` stores `sink` in the cell: a sink selection's first write. */
  ghost predicate StoresCell(r: Run, n: nat, sink: nat)
  {
    && n < |r.events| && n < |r.states| && r.events[n].Step? && r.events[n].id in r.states[n].calls
    && r.states[n].calls[r.events[n].id] == Active(Select(Sink(sink)), Begun)
  }

  ghost predicate MarkUntouched(r: Run, from: nat, m: nat)
  {
    forall n: nat, mark | from <= n < m :: !StoresMark(r, n, mark)
  }

  ghost predicate CellUntouched(r: Run, from: nat, m: nat)
  {
    forall n: nat, sink: nat | from <= n < m :: !StoresCell(r, n, sink)
  }

  /** The last store of the mark before `m` is one of `mark`. */
  ghost predicate LastMark(r: Run, m: nat, mark: Mark)
  {
    exists n: nat :: n < m && StoresMark(r, n, mark) && MarkUntouched(r, n + 1, m)
  }

  /** The last store of the cell before `m` is one of `sink`. */
  ghost predicate LastCell(r: Run, m: nat, sink: nat)
  {
    exists n: nat :: n < m && StoresCell(r, n, sink) && CellUntouched(r, n + 1, m)
  }

  /** A step that stores the mark leaves what it stores, and any other leaves the mark. */
  lemma MarkStep(r: Run, n: nat)
    requires Interleaving(r) && n < |r.events|
    ensures forall mark | StoresMark(r, n, mark) :: r.states[n + 1].selected == mark
    ensures (forall mark :: !StoresMark(r, n, mark)) ==> r.states[n + 1].selected == r.states[n].selected
  {
    assert Follows(r, n);
    if r.states[n + 1].selected != r.states[n].selected {
      assert StoresMark(r, n, r.states[n + 1].selected);
    }
  }

  lemma CellStep(r: Run, n: nat)
    requires Interleaving(r) && n < |r.events|
    ensures forall sink: nat | StoresCell(r, n, sink) :: r.states[n + 1].cell == Some(sink)
    ensures (forall sink: nat :: !StoresCell(r, n, sink)) ==> r.states[n + 1].cell == r.states[n].cell
  {
    assert Follows(r, n);
    if r.states[n + 1].cell != r.states[n].cell {
      assert StoresCell(r, n, r.states[n + 1].cell.value);
    }
  }

  lemma {:induction false} MarkStays(r: Run, from: nat, m: nat)
    requires Interleaving(r) && from <= m <= |r.events| && MarkUntouched(r, from, m)
    ensures r.states[m].selected == r.states[from].selected
  {
    if from < m {
      MarkStays(r, from, m - 1);
      MarkStep(r, m - 1);
    }
  }

  lemma {:induction false} CellStays(r: Run, from: nat, m: nat)
    requires Interleaving(r) && from <= m <= |r.events| && CellUntouched(r, from, m)
    ensures r.states[m].cell == r.states[from].cell
  {
    if from < m {
      CellStays(r, from, m - 1);
      CellStep(r, m - 1);
    }
  }

  /** Where the mark was last stored, if it was. */
  lemma {:induction false} FindMark(r: Run, m: nat) returns (n: Option<nat>, mark: Mark)
    requires Interleaving(r) && m <= |r.events|
    ensures n.Some? ==> n.value < m && StoresMark(r, n.value, mark) && MarkUntouched(r, n.value + 1, m)
    ensures n.None? ==> MarkUntouched(r, 0, m)
  {
    if m == 0 {
      n, mark := None, NONE;
    } else if StoresMark(r, m - 1, TRACING) {
      n, mark := Some(m - 1), TRACING;
    } else if StoresMark(r, m - 1, SINK) {
      n, mark := Some(m - 1), SINK;
    } else {
      n, mark := FindMark(r, m - 1);
    }
  }

  lemma {:induction false} FindCell(r: Run, m: nat) returns (n: Option<nat>, sink: nat)
    requires Interleaving(r) && m <= |r.events|
    ensures n.Some? ==> n.value < m && StoresCell(r, n.value, sink) && CellUntouched(r, n.value + 1, m)
    ensures n.None? ==> CellUntouched(r, 0, m)
  {
    if m == 0 {
      n, sink := None, 0;
    } else if CellUntouched(r, m - 1, m) {
      n, sink := FindCell(r, m - 1);
    } else {
      var last: nat, stored: nat :| m - 1 <= last < m && StoresCell(r, last, stored);
      n, sink := Some(m - 1), stored;
    }
  }

  /** The mark names what the last store of it put there. */
  lemma MarkIsLastStored(r: Run, m: nat, mark: Mark)
    requires Interleaving(r) && m <= |r.events| && mark != NONE
    ensures r.states[m].selected == mark <==> LastMark(r, m, mark)
  {
    if LastMark(r, m, mark) {
      var n: nat :| n < m && StoresMark(r, n, mark) && MarkUntouched(r, n + 1, m);
      MarkStep(r, n);
      MarkStays(r, n + 1, m);
    }
    if r.states[m].selected == mark {
      var n, stored := FindMark(r, m);
      if n.Some? {
        MarkStep(r, n.value);
        MarkStays(r, n.value + 1, m);
        assert stored == mark;
      } else {
        MarkStays(r, 0, m);
      }
    }
  }

  lemma CellIsLastStored(r: Run, m: nat, sink: nat)
    requires Interleaving(r) && m <= |r.events|
    ensures r.states[m].cell == Some(sink) <==> LastCell(r, m, sink)
  {
    if LastCell(r, m, sink) {
      var n: nat :| n < m && StoresCell(r, n, sink) && CellUntouched(r, n + 1, m);
      CellStep(r, n);
      CellStays(r, n + 1, m);
    }
    if r.states[m].cell == Some(sink) {
      var n, stored := FindCell(r, m);
      if n.Some? {
        CellStep(r, n.value);
        CellStays(r, n.value + 1, m);
        assert stored == sink;
      } else {
        CellStays(r, 0, m);
      }
    }
  }

  /** Once no selection is under way all reads agree, however the selections before overlapped: on
      tracing exactly when the mark's last store is tracing's, and on a sink exactly when it is a
      sink's and the last store of the cell is that sink's, whichever selection each store is of. */
  lemma LastStoresDecide(r: Run, m: nat, j: nat, k: nat, id: nat, logger: Logger)
    requires Quiescent(r, m) && m <= j < k && ReturnsAt(r, k, id) && r.events[j] == Begin(id, Read)
    ensures AnswerAt(r, k, id) == Named(r.states[m])
    ensures AnswerAt(r, k, id) == Some(logger) <==>
      if logger.Tracing? then LastMark(r, m, TRACING) else LastMark(r, m, SINK) && LastCell(r, m, logger.id)
  {
    QuietReadStays(r, m, j, k, id);
    InvariantThroughout(r, m);
    MarkIsLastStored(r, m, TRACING);
    MarkIsLastStored(r, m, SINK);
    if logger.Sink? {
      CellIsLastStored(r, m, logger.id);
    }
  }

  /** A selection that overlaps no other and is followed by none decides every read that starts
      after it returned: the case of that condition a caller sees to. */
  lemma LastSelectionWins(r: Run, i: nat, back: nat, j: nat, k: nat, w: nat, id: nat, logger: Logger)
    requires Undisturbed(r, i, w, logger) && i < back < j < k
    requires ReturnsAt(r, back, w) && ReturnsAt(r, k, id) && r.events[j] == Begin(id, Read)
    ensures AnswerAt(r, k, id) == Some(logger)
  {
    UndisturbedStaysAlone(r, i, back, w, logger);
    assert Quiescent(r, back);
    LastStoresDecide(r, back, j, k, id, logger);
  }

  // Overlapping selections are not ordered

  function Last(r: Run): State
    requires r.states != []
  {
    r.states[|r.states| - 1]
  }

  ghost predicate Extends(r: Run, t: Run)
  {
    r.events <= t.events && r.states <= t.states
  }

  /** A run goes on with any event its last state allows. */
  lemma Then(r: Run, e: Event) returns (t: Run)
    requires Interleaving(r) && Enabled(Last(r), e)
    ensures Interleaving(t) && Extends(r, t) && t.events == r.events + [e] && Last(t) == Next(Last(r), e)
  {
    t := Run(r.events + [e], r.states + [Next(Last(r), e)]);
    forall n | 0 <= n < |t.events| ensures Follows(t, n) {
      if n < |r.events| {
        assert Follows(r, n);
      }
    }
  }

  /** A read by call `id` from the event that begins it to the one that returns it. */
  datatype Reading = Reading(id: nat, from: nat, to: nat)

  ghost predicate Answers(r: Run, g: Reading, logger: Logger)
  {
    && g.from < g.to && ReturnsAt(r, g.to, g.id) && r.events[g.from] == Begin(g.id, Read)
    && AnswerAt(r, g.to, g.id) == Some(logger)
  }

  lemma AnswersStays(r: Run, t: Run, g: Reading, logger: Logger)
    requires Answers(r, g, logger) && Extends(r, t) && Interleaving(t)
    ensures Answers(t, g, logger)
  {
    assert t.states[g.to] == r.states[g.to] && t.events[g.to] == r.events[g.to] && t.events[g.from] == r.events[g.from];
  }

  /** A whole read with nothing in between. */
  lemma ReadNow(r: Run, id: nat) returns (t: Run, g: Reading)
    requires Interleaving(r) && id !in Last(r).calls && Named(Last(r)).Some?
    ensures Interleaving(t) && Extends(r, t) && Answers(t, g, Named(Last(r)).value)
    ensures g.from == |r.events| && g.to < |t.events|
    ensures Last(t) == Last(r).(calls := Last(r).calls[id := Active(Read, Returned(Named(Last(r))))])
  {
    t := Then(r, Begin(id, Read));
    t := Then(t, Step(id));
    if Last(r).selected == SINK {
      t := Then(t, Step(id));
    }
    g := Reading(id, |r.events|, |t.events|);
    t := Then(t, Return(id));
  }

  /** A sink selection between its two writes, over a mark an earlier one left. */
  lemma SinkShowsEarly() returns (r: Run, g: Reading)
    ensures Interleaving(r) && Answers(r, g, Sink(8)) && g.to < |r.events|
    ensures Last(r) == State(SINK, Some(8), map[
      0 := Active(Select(Sink(7)), Done(None)),
      1 := Active(Select(Sink(8)), Halfway),
      2 := Active(Read, Returned(Some(Sink(8))))])
  {
    r := Run([], [INIT]);
    r := Then(r, Begin(0, Select(Sink(7))));
    r := Then(r, Step(0));
    r := Then(r, Step(0));
    r := Then(r, Begin(1, Select(Sink(8))));
    r := Then(r, Step(1));
    r, g := ReadNow(r, 2);
  }

  /** ... then lost to `tracing`, before the selection sets the mark. */
  lemma TracingShows() returns (r: Run, a: Reading, b: Reading)
    ensures Interleaving(r) && Answers(r, a, Sink(8)) && Answers(r, b, Tracing) && a.to < b.from && b.to < |r.events|
    ensures Last(r) == State(TRACING, Some(8), map[
      0 := Active(Select(Sink(7)), Done(None)),
      1 := Active(Select(Sink(8)), Halfway),
      2 := Active(Read, Returned(Some(Sink(8)))),
      3 := Active(Select(Tracing), Done(None)),
      4 := Active(Read, Returned(Some(Tracing)))])
  {
    var s, t;
    s, a := SinkShowsEarly();
    t := Then(s, Begin(3, Select(Tracing)));
    t := Then(t, Step(3));
    r, b := ReadNow(t, 4);
    AnswersStays(s, r, a, Sink(8));
  }

  /** With a sink in place, the selection of another can show its sink before it sets the mark,
      lose it to `tracing` and show it again: three reads, each begun after the one before it
      returned, answer the new sink, tracing and the new sink. There are three selections in all,
      of which the new sink's and tracing's are one each. */
  lemma SelectionsFlicker() returns (r: Run, a: Reading, b: Reading, c: Reading)
    ensures Answers(r, a, Sink(8)) && Answers(r, b, Tracing) && Answers(r, c, Sink(8))
    ensures a.to < b.from && b.to < c.from
    ensures var calls := Last(r).calls;
      && calls.Keys == {0, 1, 2, 3, 4, 5}
      && calls[0].call == Select(Sink(7)) && calls[1].call == Select(Sink(8)) && calls[3].call == Select(Tracing)
      && calls[2].call == calls[4].call == calls[5].call == Read
  {
    var s, t;
    s, a, b := TracingShows();
    t := Then(s, Step(1));
    r, c := ReadNow(t, 5);
    AnswersStays(s, r, a, Sink(8));
    AnswersStays(s, r, b, Tracing);
  }
}
