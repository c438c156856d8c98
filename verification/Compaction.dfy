/**
 * The journal that makes an off-thread rebuild invisible, on values: what it records of each mutation,
 * and why replaying it onto the capture gives the live map, whatever happened in between.
 */
module Compaction {
  import opened Core
  import opened Contents

  datatype Mutation = Put(id: VecId, vector: Vector) | Erase(id: VecId)

  function Mutate(m: Store, x: Mutation): Store {
    match x
    case Put(id, vector) => With(m, id, vector)
    case Erase(id) => Without(m, id)
  }

  function ReplayJournal(m: Store, journal: seq<Mutation>): Store {
    if journal == [] then m else Mutate(ReplayJournal(m, journal[..|journal| - 1]), journal[|journal| - 1])
  }

  /** Every journaled vector has dimension `dim`, so replaying cannot fail. */
  ghost predicate JournalFits(journal: seq<Mutation>, dim: nat) {
    forall i | 0 <= i < |journal| :: journal[i].Put? ==> |journal[i].vector| == dim
  }

  /** What a client does to a collection while a rebuild is under way. Any of them may fail. */
  datatype Event = Inserted(id: VecId, vector: Vector) | Batched(rows: seq<BatchRow>) | Deleted(id: VecId)

  /** Effect of an event on the live index, a graph: wrong lengths change nothing. */
  function After(m: Store, dim: nat, e: Event): Store {
    match e
    case Inserted(id, vector) => if |vector| == dim then With(m, id, vector) else m
    case Batched(rows) => if FirstMismatch(rows, dim).None? then InsertAll(m, rows) else m
    case Deleted(id) => Without(m, id)
  }

  function Puts(rows: seq<BatchRow>): seq<Mutation> {
    if rows == [] then [] else Puts(rows[..|rows| - 1]) + [Put(rows[|rows| - 1].0, rows[|rows| - 1].1)]
  }

  /** What the journal gains: only what succeeded, and deletes only of ids that were there. */
  function Recorded(m: Store, dim: nat, e: Event): seq<Mutation> {
    match e
    case Inserted(id, vector) => if |vector| == dim then [Put(id, vector)] else []
    case Batched(rows) => if FirstMismatch(rows, dim).None? then Puts(rows) else []
    case Deleted(id) => if id in m then [Erase(id)] else []
  }

  function AfterAll(m: Store, dim: nat, events: seq<Event>): Store {
    if events == [] then m else After(AfterAll(m, dim, events[..|events| - 1]), dim, events[|events| - 1])
  }

  function RecordedAll(m: Store, dim: nat, events: seq<Event>): seq<Mutation> {
    if events == [] then []
    else
      var front := events[..|events| - 1];
      RecordedAll(m, dim, front) + Recorded(AfterAll(m, dim, front), dim, events[|events| - 1])
  }

  lemma {:induction false} ReplayConcat(m: Store, a: seq<Mutation>, b: seq<Mutation>)
    ensures ReplayJournal(m, a + b) == ReplayJournal(ReplayJournal(m, a), b)
  {
    if b == [] {
      assert a + b == a;
    } else {
      ReplayConcat(m, a, b[..|b| - 1]);
      assert (a + b)[..|a + b| - 1] == a + b[..|b| - 1];
    }
  }

  lemma {:induction false} ReplayPuts(m: Store, rows: seq<BatchRow>)
    ensures ReplayJournal(m, Puts(rows)) == InsertAll(m, rows)
  {
    if rows != [] {
      var n := |rows| - 1;
      ReplayPuts(m, rows[..n]);
      assert Puts(rows)[..|Puts(rows)| - 1] == Puts(rows[..n]);
    }
  }

  lemma {:induction false} PutsFit(rows: seq<BatchRow>, dim: nat)
    requires AllFit(rows, dim)
    ensures JournalFits(Puts(rows), dim)
  {
    if rows != [] { PutsFit(rows[..|rows| - 1], dim); }
  }

  lemma RecordedFits(m: Store, dim: nat, e: Event)
    ensures JournalFits(Recorded(m, dim, e), dim)
  {
    if e.Batched? && FirstMismatch(e.rows, dim).None? { PutsFit(e.rows, dim); }
  }

  /** Recording one event keeps the journal in step with the live map. */
  lemma RecordedKeepsStep(captured: Store, journal: seq<Mutation>, m: Store, dim: nat, e: Event)
    requires ReplayJournal(captured, journal) == m && JournalFits(journal, dim)
    ensures ReplayJournal(captured, journal + Recorded(m, dim, e)) == After(m, dim, e)
    ensures JournalFits(journal + Recorded(m, dim, e), dim)
  {
    hide Puts, InsertAll;
    ReplayConcat(captured, journal, Recorded(m, dim, e));
    RecordedFits(m, dim, e);
    match e
    case Inserted(id, vector) => ReplayOne(m, Put(id, vector));
    case Batched(rows) => ReplayPuts(m, rows);
    case Deleted(id) =>
      if id in m { ReplayOne(m, Erase(id)); } else { assert Without(m, id) == m; }
  }

  lemma ReplayOne(m: Store, x: Mutation)
    ensures ReplayJournal(m, [x]) == Mutate(m, x)
  {
    assert [x][..0] == [];
  }

  /**
   * Compaction is invisible: after any interleaving of successful and failing inserts, batches and
   * deletes, replaying the journal onto the capture cannot fail and gives exactly the live map.
   */
  lemma {:induction false} SwapIsInvisible(captured: Store, dim: nat, events: seq<Event>)
    ensures JournalFits(RecordedAll(captured, dim, events), dim)
    ensures ReplayJournal(captured, RecordedAll(captured, dim, events)) == AfterAll(captured, dim, events)
  {
    if events != [] {
      var front := events[..|events| - 1];
      SwapIsInvisible(captured, dim, front);
      RecordedKeepsStep(captured, RecordedAll(captured, dim, front), AfterAll(captured, dim, front), dim,
        events[|events| - 1]);
    }
  }

  // --- Finishing a plan that did not open the journal ----------------------------------------------------

  ghost predicate Touches(journal: seq<Mutation>, id: VecId) {
    exists i | 0 <= i < |journal| :: journal[i].id == id
  }

  /** On an id the journal touches, replay no longer depends on the capture; elsewhere it changes nothing. */
  lemma {:induction false} ReplayAt(a: Store, b: Store, journal: seq<Mutation>, id: VecId)
    ensures if Touches(journal, id) then Lookup(ReplayJournal(a, journal), id) == Lookup(ReplayJournal(b, journal), id)
            else Lookup(ReplayJournal(a, journal), id) == Lookup(a, id)
  {
    if journal != [] {
      var n := |journal| - 1;
      ReplayAt(a, b, journal[..n], id);
      assert Touches(journal, id) <==> Touches(journal[..n], id) || journal[n].id == id by {
        assert forall i | 0 <= i < n :: journal[..n][i] == journal[i];
      }
    }
  }

  lemma SameByIds(a: Store, b: Store)
    requires forall id :: Lookup(a, id) == Lookup(b, id)
    ensures a == b
  {
    forall id ensures id in a <==> id in b { assert Lookup(a, id) == Lookup(b, id); }
    forall id | id in a ensures a[id] == b[id] { assert Lookup(a, id) == Lookup(b, id); }
  }

  /**
   * Finishing with some other capture, such as that of a cancelled plan, gives the live map exactly
   * when the two captures agree on every id the journal does not touch.
   */
  lemma StalePlanIsHarmlessIff(stale: Store, captured: Store, journal: seq<Mutation>)
    ensures ReplayJournal(stale, journal) == ReplayJournal(captured, journal)
       <==> forall id :: Touches(journal, id) || Lookup(stale, id) == Lookup(captured, id)
  {
    forall id ensures Lookup(ReplayJournal(stale, journal), id) == Lookup(ReplayJournal(captured, journal), id)
                 <==> Touches(journal, id) || Lookup(stale, id) == Lookup(captured, id)
    {
      ReplayAt(stale, captured, journal, id);
      ReplayAt(captured, stale, journal, id);
    }
    if forall id :: Touches(journal, id) || Lookup(stale, id) == Lookup(captured, id) {
      SameByIds(ReplayJournal(stale, journal), ReplayJournal(captured, journal));
    }
  }
}
