/**
 Runs of the delivery protocol that lose an event: the three ways of `DeliveryProtocol.Takes`
 by which one leaves the outbox without having been stored all happen.
 */
module DeliveryLosses {
  import opened Wrappers
  import opened Delivery
  import opened DeliveryProtocol

  /** The event was recorded, does not wait any more, and the API never stored it. */
  ghost predicate Lost(s: State, e: Event) {
    e.id in s.written && s.written[e.id] == Valid(e) && !Waits(s, e) && !IsStored(s, e)
  }

  ghost predicate CanLose(e: Event) {
    exists s, n :: Reachable(s, n) && Lost(s, e)
  }

  lemma OneStep(s: State, n: nat, step: Step)
    requires Reachable(s, n) && Enabled(s, step)
    ensures Reachable(Apply(s, step), n + 1)
  {
    hide Enabled, Apply;
  }

  lemma LosesNow(s: State, n: nat, e: Event)
    requires Reachable(s, n) && Lost(s, e)
    ensures CanLose(e)
  {
    hide Reachable, Lost;
  }

  const FRESH := State([], true, false, None, map[], {}, [], map[], map[])

  function FileOf(e: Event): Entry {
    Entry(e.id, Valid(e))
  }

  /** One event was recorded with reporting on. */
  function OneWaiting(e: Event): State {
    FRESH.(outbox := [FileOf(e)], written := map[e.id := Valid(e)])
  }

  lemma OneWaits(e: Event)
    ensures Reachable(OneWaiting(e), 1)
  {
    assert Reachable(FRESH, 0);
    OneStep(FRESH, 0, Record(e));
    assert Dropping(map[], [], OutboxFull) == map[];
    assert Apply(FRESH, Record(e)) == OneWaiting(e);
  }

  /** Turning reporting off loses what waits. */
  lemma TurningOffLoses(e: Event)
    ensures CanLose(e)
  {
    hide Reachable;
    var on := OneWaiting(e);
    OneWaits(e);
    OneStep(on, 1, TurnOff);
    var off := on.(reporting := false, purging := true);
    assert Apply(on, TurnOff) == off;
    OneStep(off, 2, Purge);
    LosesNow(Apply(off, Purge), 3, e);
  }

  /** A file that could not be read once is deleted, though its event is valid and not stored. */
  lemma UnreadableFileLoses(e: Event, p: Proc)
    ensures CanLose(e)
  {
    hide Reachable;
    var waiting := OneWaiting(e);
    OneWaits(e);
    OneStep(waiting, 1, Start(p));
    var locked := waiting.(phases := map[p := Checking], lock := Some(p));
    assert Apply(waiting, Start(p)) == locked;
    OneStep(locked, 2, CheckReporting(p));
    var reading := locked.(phases := map[p := Reading([e.id], [])]);
    assert NamesOf([FileOf(e)]) == [e.id];
    assert Apply(locked, CheckReporting(p)) == reading;
    ReadFails(e, p, reading, 3);
  }

  lemma ReadFails(e: Event, p: Proc, s: State, n: nat)
    requires Reachable(s, n) && s == OneWaiting(e).(phases := map[p := Reading([e.id], [])], lock := Some(p))
    ensures CanLose(e)
  {
    hide Reachable;
    var step := ReadNext(p, false);
    OneStep(s, n, step);
    WithoutIs(s.outbox, e.id);
    LosesNow(Apply(s, step), n + 1, e);
  }

  /** An event whose id is n letters long. */
  function Numbered(n: nat): (e: Event)
    ensures |e.id| == n
  {
    Event(seq(n, _ => 'x'), "")
  }

  /** The first n numbered events wait. */
  function Filled(n: nat): State {
    if n == 0 then FRESH
    else
      var s, e := Filled(n - 1), Numbered(n - 1);
      s.(outbox := s.outbox + [FileOf(e)], written := s.written[e.id := Valid(e)])
  }

  lemma {:induction false} FilledIs(n: nat)
    ensures var s := Filled(n);
            && |s.outbox| == n && s.stored == [] && s.dropped == map[]
            && (n > 0 ==> s.outbox[0] == FileOf(Numbered(0)) && Numbered(0).id in s.written
                          && s.written[Numbered(0).id] == Valid(Numbered(0)))
            && (forall id :: id in s.written ==> |id| < n)
            && (forall i :: 0 < i < n ==> |s.outbox[i].name| > 0)
  {
    if n > 0 {
      FilledIs(n - 1);
    }
  }

  lemma {:induction false} Fills(n: nat)
    requires n <= MAX_PENDING_EVENTS
    ensures Reachable(Filled(n), n)
  {
    if n > 0 {
      Fills(n - 1);
      hide Reachable, Filled;
      FillsOneMore(n - 1);
    } else {
      assert Reachable(FRESH, 0);
    }
  }

  lemma FillsOneMore(n: nat)
    requires n < MAX_PENDING_EVENTS && Reachable(Filled(n), n)
    ensures Reachable(Filled(n + 1), n + 1)
  {
    hide Reachable;
    var s, e := Filled(n), Numbered(n);
    FilledIs(n);
    OneStep(s, n, Record(e));
    hide Filled;
    assert s.outbox[0..] == s.outbox;
    assert Dropping(s.dropped, s.outbox[..0], OutboxFull) == s.dropped;
    assert Apply(s, Record(e)) == s.(outbox := s.outbox + [FileOf(e)], written := s.written[e.id := Valid(e)]);
    FilledStep(n);
  }

  lemma FilledStep(n: nat)
    ensures var s, e := Filled(n), Numbered(n);
            Filled(n + 1) == s.(outbox := s.outbox + [FileOf(e)], written := s.written[e.id := Valid(e)])
  {}

  lemma FullLoses(n: nat)
    requires n == MAX_PENDING_EVENTS
    ensures CanLose(Numbered(0))
  {
    hide Reachable, Filled;
    var full, e, oldest := Filled(n), Numbered(n), Numbered(0);
    Fills(n);
    FilledIs(n);
    OneStep(full, n, Record(e));
    var after := Apply(full, Record(e));
    assert Overflow(full.outbox) == 1;
    assert after.outbox == full.outbox[1..] + [FileOf(e)];
    assert after.stored == [] && after.written == full.written[e.id := Valid(e)];
    forall i | 0 <= i < |after.outbox| ensures after.outbox[i] != FileOf(oldest) {
      if i < n - 1 {
        assert after.outbox[i] == full.outbox[i + 1];
      }
    }
    LosesNow(after, n + 1, oldest);
  }

  /** With the outbox full, recording one more event loses the oldest. */
  lemma FullOutboxLosesOldest()
    ensures CanLose(Numbered(0))
  {
    var n :| n == MAX_PENDING_EVENTS;
    FullLoses(n);
  }
}
