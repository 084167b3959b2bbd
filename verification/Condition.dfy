/**
 A POSIX condition variable (base/Condition.h), as the two sets of threads it
 is about: those asleep in `wait`, and those woken that have not yet got the
 mutex back. The mutex itself is not modelled: every step of a machine built
 on a CondVar is one stretch of code that runs with the mutex held.
 */
module Condition {

  type ThreadId = nat

  datatype CondVar = CondVar(waiting: set<ThreadId>, notified: set<ThreadId>) {

    predicate Consistent() {
      waiting !! notified
    }

    predicate Involves(t: ThreadId) {
      t in waiting || t in notified
    }

    /** `t` starts to wait, for the first time or again after a wake-up. */
    function Sleep(t: ThreadId): CondVar {
      CondVar(waiting + {t}, notified - {t})
    }

    /** `t` goes on with the mutex held; it may never have waited at all. */
    function Leave(t: ThreadId): CondVar {
      CondVar(waiting, notified - {t})
    }

    /** A signal unblocks at least one of the waiting threads, if there are any; which ones is open. */
    predicate MaySignal(wake: set<ThreadId>) {
      wake <= waiting && (waiting != {} ==> wake != {})
    }

    /** The threads in `wake` are woken, by a signal, a broadcast or spuriously. */
    function Wake(wake: set<ThreadId>): CondVar {
      CondVar(waiting - wake, notified + wake)
    }

    /** No wake-up is lost: while somebody sleeps, every available unit has a woken thread coming for it. */
    predicate Covers(available: int) {
      waiting != {} ==> available <= |notified|
    }
  }

  const IDLE := CondVar({}, {})

  /** A new unit that is announced with a signal stays covered. */
  lemma SignalCovers(c: CondVar, available: int, wake: set<ThreadId>)
    requires c.Consistent() && c.Covers(available) && c.MaySignal(wake)
    ensures c.Wake(wake).Consistent() && c.Wake(wake).Covers(available + 1)
  {
    WakeCount(c, wake);
  }

  /** A wake-up nobody asked for does no harm. */
  lemma SpuriousCovers(c: CondVar, available: int, wake: set<ThreadId>)
    requires c.Consistent() && c.Covers(available) && wake <= c.waiting
    ensures c.Wake(wake).Consistent() && c.Wake(wake).Covers(available)
  {
    WakeCount(c, wake);
  }

  lemma WakeCount(c: CondVar, wake: set<ThreadId>)
    requires c.Consistent() && wake <= c.waiting
    ensures |c.Wake(wake).notified| == |c.notified| + |wake|
  {
    assert c.notified !! wake;
  }

  /** A thread that takes a unit, woken for it or barging in, leaves the rest covered. */
  lemma LeaveCovers(c: CondVar, available: int, t: ThreadId)
    requires c.Consistent() && c.Covers(available)
    ensures c.Leave(t).Consistent() && c.Leave(t).Covers(available - 1)
  {
    if t in c.notified {
      assert |c.notified - {t}| == |c.notified| - 1;
    } else {
      assert c.notified - {t} == c.notified;
    }
  }
}
