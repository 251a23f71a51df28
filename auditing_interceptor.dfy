/** AuditingInterceptor: before a save, every tracked entry that is being added gets
    an id (when it has none) and its creation instant, and every entry being
    modified gets its modification instant. The change tracker's entries are an
    array updated in place; the clock is read once, as `now`; `provide(n)` is the
    id the id provider returns on its n-th call. */
module Auditing {
  import opened Domain

  /** EntityFramework's EntityState. */
  datatype EntityState = Detached | Unchanged | Deleted | Modified | Added

  datatype Entry = Entry(state: EntityState, entity: Product)

  /** An Added entry whose id is Guid.Empty, which makes the provider draw one. */
  predicate NeedsId(e: Entry) {
    e.state == Added && e.entity.id == EmptyGuid
  }

  /** The provider calls the entries make, in order. */
  function Drawn(entries: seq<Entry>): (n: nat)
    ensures n <= |entries|
  {
    if entries == [] then 0
    else Drawn(entries[..|entries| - 1]) + (if NeedsId(entries[|entries| - 1]) then 1 else 0)
  }

  /** The rule for one entry, given the id the provider would return. */
  function Stamp(e: Entry, now: Instant, newId: Guid): (r: Entry)
    ensures r.state == e.state
    ensures e.state != Added && e.state != Modified ==> r == e
    ensures e.state == Added ==>
      && r.entity.id == (if e.entity.id == EmptyGuid then newId else e.entity.id)
      && r.entity.createdOnUtc == now
      && r.entity.(id := e.entity.id, createdOnUtc := e.entity.createdOnUtc) == e.entity
    ensures e.state == Modified ==>
      && r.entity.modifiedOnUtc == Some(now)
      && r.entity.(modifiedOnUtc := e.entity.modifiedOnUtc) == e.entity
  {
    match e.state
    case Added =>
      var withId := if e.entity.id == EmptyGuid then e.entity.(id := newId) else e.entity;
      Entry(e.state, withId.(createdOnUtc := now))
    case Modified => Entry(e.state, e.entity.(modifiedOnUtc := Some(now)))
    case _ => e
  }

  /** The entries after the pass, each stamped in order; a new id goes to an entry
      only through the provider call that follows those of the entries before it. */
  function Audit(entries: seq<Entry>, now: Instant, provide: nat -> Guid): (r: seq<Entry>)
    ensures |r| == |entries|
  {
    if entries == [] then []
    else
      var last := |entries| - 1;
      Audit(entries[..last], now, provide) + [Stamp(entries[last], now, provide(Drawn(entries[..last])))]
  }

  /** Extending the entries by one extends the pass by that entry's stamp. */
  lemma {:induction false} AuditStep(entries: seq<Entry>, now: Instant, provide: nat -> Guid, i: int)
    requires 0 <= i < |entries|
    ensures Audit(entries[..i + 1], now, provide)
      == Audit(entries[..i], now, provide) + [Stamp(entries[i], now, provide(Drawn(entries[..i])))]
  {
    assert entries[..i + 1][..i] == entries[..i];
    assert entries[..i + 1][i] == entries[i];
  }

  /** Entry by entry: entry i is stamped with the id of the provider's call number
      Drawn(entries[..i]), the number of calls the entries before it made. */
  lemma {:induction false} AuditPointwise(entries: seq<Entry>, now: Instant, provide: nat -> Guid)
    ensures forall i :: 0 <= i < |entries| ==>
      Audit(entries, now, provide)[i] == Stamp(entries[i], now, provide(Drawn(entries[..i])))
    decreases |entries|
  {
    if entries != [] {
      var last := |entries| - 1;
      var front := entries[..last];
      var r, a := Audit(entries, now, provide), Audit(front, now, provide);
      var x := Stamp(entries[last], now, provide(Drawn(front)));
      assert r == a + [x];
      AuditPointwise(front, now, provide);
      forall i | 0 <= i < |entries|
        ensures r[i] == Stamp(entries[i], now, provide(Drawn(entries[..i])))
      {
        if i < last {
          assert r[i] == a[i];
          assert front[..i] == entries[..i] && front[i] == entries[i];
        } else {
          assert r[i] == x;
        }
      }
    }
  }

  /** The per-entry rules over the whole pass: entries neither added nor modified are
      untouched, an added entry keeps a non-empty id and gets `now` as its creation
      instant, a modified entry gets `now` as its modification instant and keeps its
      creation instant. */
  lemma {:induction false} AuditRules(entries: seq<Entry>, now: Instant, provide: nat -> Guid)
    ensures var r := Audit(entries, now, provide);
      forall i :: 0 <= i < |entries| ==>
        && r[i].state == entries[i].state
        && (entries[i].state != Added && entries[i].state != Modified ==> r[i] == entries[i])
        && (entries[i].state == Added ==>
              && r[i].entity.createdOnUtc == now
              && (entries[i].entity.id != EmptyGuid ==> r[i].entity.id == entries[i].entity.id))
        && (entries[i].state == Modified ==>
              && r[i].entity.modifiedOnUtc == Some(now)
              && r[i].entity.createdOnUtc == entries[i].entity.createdOnUtc)
  {
    AuditPointwise(entries, now, provide);
  }

  /** One timestamp: every entry created or modified in one save carries the same
      instant. */
  lemma {:induction false} OneTimestamp(entries: seq<Entry>, now: Instant, provide: nat -> Guid, i: int, j: int)
    requires 0 <= i < |entries| && 0 <= j < |entries|
    requires entries[i].state == Added && entries[j].state == Modified
    ensures var r := Audit(entries, now, provide);
      r[j].entity.modifiedOnUtc == Some(r[i].entity.createdOnUtc)
  {
    AuditPointwise(entries, now, provide);
  }

  /** Every added entity ends with an id when the provider never returns Guid.Empty,
      and distinct provider calls go to distinct entries. */
  lemma {:induction false} AddedGetIds(entries: seq<Entry>, now: Instant, provide: nat -> Guid)
    requires forall n: nat :: provide(n) != EmptyGuid
    ensures var r := Audit(entries, now, provide);
      forall i :: 0 <= i < |entries| && entries[i].state == Added ==> r[i].entity.id != EmptyGuid
    ensures forall i, j :: 0 <= i < j < |entries| && NeedsId(entries[i]) ==> Drawn(entries[..i]) < Drawn(entries[..j])
  {
    AuditPointwise(entries, now, provide);
    forall i, j | 0 <= i < j < |entries| && NeedsId(entries[i])
      ensures Drawn(entries[..i]) < Drawn(entries[..j])
    {
      DrawnGrows(entries, i, j);
    }
  }

  lemma {:induction false} DrawnGrows(entries: seq<Entry>, i: int, j: int)
    requires 0 <= i < j <= |entries| && NeedsId(entries[i])
    ensures Drawn(entries[..i]) < Drawn(entries[..j])
    decreases j
  {
    assert entries[..j][..j - 1] == entries[..j - 1];
    if j - 1 == i {
      assert entries[..j][j - 1] == entries[i];
    } else {
      DrawnGrows(entries, i, j - 1);
    }
  }

  lemma {:induction false} DrawnStep(entries: seq<Entry>, i: int)
    requires 0 <= i < |entries|
    ensures Drawn(entries[..i + 1]) == Drawn(entries[..i]) + if NeedsId(entries[i]) then 1 else 0
  {
    assert entries[..i + 1][..i] == entries[..i];
  }

  /** The loop body for one entry; `calls` counts the provider calls made so far. */
  method StampEntry(entry: Entry, now: Instant, provide: nat -> Guid, calls: nat) returns (r: Entry, calls': nat)
    ensures r == Stamp(entry, now, provide(calls))
    ensures calls' == calls + if NeedsId(entry) then 1 else 0
  {
    r, calls' := entry, calls;
    if entry.state == Added {
      var entity := entry.entity;
      if entity.id == EmptyGuid {
        entity := entity.(id := provide(calls));
        calls' := calls + 1;
      }
      r := Entry(entry.state, entity.(createdOnUtc := now));
    }
    if entry.state == Modified {
      r := Entry(entry.state, entry.entity.(modifiedOnUtc := Some(now)));
    }
  }

  /** UpdateAuditableEntities: one pass over the tracked entries in place. */
  method UpdateAuditableEntities(entries: array<Entry>, now: Instant, provide: nat -> Guid) returns (calls: nat)
    modifies entries
    ensures entries[..] == Audit(old(entries[..]), now, provide)
    ensures calls == Drawn(old(entries[..]))
  {
    ghost var before := entries[..];
    calls := 0;
    var i := 0;
    while i < entries.Length
      invariant 0 <= i <= entries.Length
      invariant calls == Drawn(before[..i])
      invariant entries[..i] == Audit(before[..i], now, provide)
      invariant entries[i..] == before[i..]
    {
      DrawnStep(before, i);
      AuditStep(before, now, provide, i);
      assert entries[i] == before[i];
      entries[i], calls := StampEntry(entries[i], now, provide, calls);
      assert entries[..i + 1] == entries[..i] + [entries[i]];
      i := i + 1;
    }
    assert before[..entries.Length] == before && entries[..entries.Length] == entries[..];
  }

  /** SavingChangesAsync: a save without a context changes nothing. */
  method SavingChanges(context: array?<Entry>, now: Instant, provide: nat -> Guid)
    modifies context
    ensures context != null ==> context[..] == Audit(old(context[..]), now, provide)
  {
    if context != null {
      var calls := UpdateAuditableEntities(context, now, provide);
    }
  }
}
