/** LightweightSemaphore (Baseline/include/message_queue/atomicops.h) with one signaller and one
    waiter, every fetch_add and load one step, waits with any timeout. */
module Semaphore {

  datatype Signaller = SIdle | SPost | SAborted   // SPost: about to call m_sema.signal(1)

  datatype Waiter =
    | WDone(ok: bool)
    | WTry(spins: nat, timed: bool)   // tryWait's load of m_count, before `spins` rounds; tryWait alone if !timed
    | WTake                           // fetch_add(-1) after a positive load
    | WSpin(spins: nat)               // spinning: load m_count
    | WDecrement                      // fetch_add(-1)
    | WBlock                          // m_sema.wait or timed_wait
    | WRestore                        // fetch_add(1) after the time is out
    | WRetry                          // fetch_add(-1) again: the signaller came after all
    | WTryKernel                      // m_sema.try_wait

  /** m_count, the kernel semaphore, and how many signals and successful waits there have been. */
  datatype Sema = Sema(count: int, kernel: nat, signaller: Signaller, waiter: Waiter, signals: nat, waits: nat)

  const SPINS: nat := 1024

  function SemaInit(): Sema {
    Sema(0, 0, SIdle, WDone(false), 0, 0)
  }

  /** signal(1): fetch_add(1), then the kernel semaphore if somebody waits. */
  function SignalStep(s: Sema): Sema {
    match s.signaller
    case SIdle =>
      s.(count := s.count + 1, signals := s.signals + 1,
         signaller := if s.count < -1 then SAborted else if s.count < 0 then SPost else SIdle)
    case SPost => s.(kernel := s.kernel + 1, signaller := SIdle)
    case SAborted => s
  }

  function Success(s: Sema): Sema {
    s.(waiter := WDone(true), waits := s.waits + 1)
  }

  /** One step of tryWait or wait; `timeout` ends a kernel wait that could go on. */
  function WaitStep(s: Sema, timeout: bool): Sema {
    match s.waiter
    case WDone(_) => s
    case WTry(spins, timed) =>
      s.(waiter := if s.count > 0 then WTake else if timed then WSpin(spins) else WDone(false))
    case WTake => Success(s.(count := s.count - 1))
    case WSpin(spins) =>
      if spins == 0 then s.(waiter := WDecrement)
      else s.(waiter := if s.count > 0 then WTake else WSpin(spins - 1))
    case WDecrement =>
      if s.count > 0 then Success(s.(count := s.count - 1)) else s.(count := s.count - 1, waiter := WBlock)
    case WBlock =>
      if timeout then s.(waiter := WRestore)
      else if s.kernel > 0 then Success(s.(kernel := s.kernel - 1))
      else s
    case WRestore =>
      s.(count := s.count + 1, waiter := if s.count < 0 then WDone(false) else WRetry)
    case WRetry =>
      s.(count := s.count - 1, waiter := if s.count > 0 then WTryKernel else WRestore)
    case WTryKernel =>
      if s.kernel > 0 then Success(s.(kernel := s.kernel - 1)) else s.(waiter := WRestore)
  }

  /** The waiter has taken one off m_count without having been let through. */
  predicate Counted(w: Waiter) {
    w.WBlock? || w.WRestore? || w.WTryKernel?
  }

  function Tokens(s: Sema): nat {
    s.kernel + if s.signaller.SPost? then 1 else 0
  }

  predicate SemaInv(s: Sema) {
    && !s.signaller.SAborted?
    && s.count == s.signals - s.waits - (if Counted(s.waiter) then 1 else 0)
    && s.count >= (if Counted(s.waiter) then -1 else 0)
    && (match s.waiter
        case WBlock => Tokens(s) == if s.count >= 0 then 1 else 0
        case WRestore => Tokens(s) == if s.count >= 0 then 1 else 0
        case WTryKernel => s.count >= 0 && Tokens(s) == 1
        case WRetry => s.count >= 1 && Tokens(s) == 1
        case WTake => s.count >= 1 && Tokens(s) == 0
        case _ => Tokens(s) == 0)
  }

  datatype SemaEvent = Signal | Wait(timeout: bool) | CallWait(timed: bool)

  function SemaStep(s: Sema, e: SemaEvent): Sema {
    match e
    case Signal => SignalStep(s)
    case Wait(timeout) => WaitStep(s, timeout)
    case CallWait(timed) => if s.waiter.WDone? then s.(waiter := WTry(SPINS, timed)) else s
  }

  /** Kept by every step; in particular m_count >= -1, so the assertion in signal holds. */
  lemma SemaStepKeeps(s: Sema, e: SemaEvent)
    requires SemaInv(s)
    ensures SemaInv(SemaStep(s, e))
  {
  }

  function SemaRun(es: seq<SemaEvent>): Sema {
    if es == [] then SemaInit() else SemaStep(SemaRun(es[..|es| - 1]), es[|es| - 1])
  }

  /** Over all interleavings, timeouts included: waits that succeed never exceed signals, m_count
      stays at -1 or above, and outside a wait m_count is exactly the signals not yet waited for --
      so a wait that timed out has put the count back. */
  lemma {:induction false} SemaphoreCounts(es: seq<SemaEvent>)
    ensures var s := SemaRun(es);
            && SemaInv(s) && s.waits <= s.signals && s.count >= -1 && !s.signaller.SAborted?
            && (s.waiter.WDone? ==> s.count == s.signals - s.waits)
  {
    if es != [] {
      SemaphoreCounts(es[..|es| - 1]);
      SemaStepKeeps(SemaRun(es[..|es| - 1]), es[|es| - 1]);
    }
  }

  /** A wait, timed or not, and a tryWait fail only at an instant at which every signal is taken. */
  lemma FailedWait(s: Sema, timeout: bool)
    requires SemaInv(s) && !s.waiter.WDone? && WaitStep(s, timeout).waiter == WDone(false)
    ensures s.signals == s.waits
  {
  }

  /** A step while the waiter is inside its call, with a signal left for it. */
  lemma StillSignalled(s: Sema, e: SemaEvent)
    requires SemaInv(s) && !s.waiter.WDone? && s.signals > s.waits
    ensures var t := SemaStep(s, e); if t.waiter.WDone? then t.waiter.ok else t.signals > t.waits
  {
    if e.Wait? && WaitStep(s, e.timeout).waiter == WDone(false) {
      FailedWait(s, e.timeout);
    }
  }

  lemma CallBegins(s: Sema, timed: bool)
    requires s.waiter.WDone?
    ensures var t := SemaStep(s, CallWait(timed));
            !t.waiter.WDone? && t.signals == s.signals && t.waits == s.waits
  {
  }

  lemma LastEvent(es: seq<SemaEvent>, n: nat)
    requires 0 < n <= |es|
    ensures SemaRun(es[..n]) == SemaStep(SemaRun(es[..n - 1]), es[n - 1])
  {
    assert es[..n][..n - 1] == es[..n - 1];
  }

  /** In every interleaving, a call of wait or tryWait that begins with a signal left cannot fail. */
  lemma {:induction false} SignalledWaitSucceeds(es: seq<SemaEvent>, i: nat, n: nat)
    requires i < n <= |es| && es[i].CallWait?
    requires SemaRun(es[..i]).waiter.WDone? && SemaRun(es[..i]).signals > SemaRun(es[..i]).waits
    requires forall k :: i < k < n ==> !SemaRun(es[..k]).waiter.WDone?
    ensures var s := SemaRun(es[..n]); if s.waiter.WDone? then s.waiter.ok else s.signals > s.waits
  {
    hide SemaRun, SemaStep, SemaInv;
    LastEvent(es, n);
    if n == i + 1 {
      CallBegins(SemaRun(es[..i]), es[i].timed);
    } else {
      SignalledWaitSucceeds(es, i, n - 1);
      SemaphoreCounts(es[..n - 1]);
      StillSignalled(SemaRun(es[..n - 1]), es[n - 1]);
    }
  }

  /** A waiter that blocks while a signal is left is let through, once the signaller is done. */
  lemma WakesUp(s: Sema)
    requires SemaInv(s) && s.waiter.WBlock? && s.signaller.SIdle?
    ensures WaitStep(s, false).waiter == WDone(true) <==> s.signals > s.waits
  {
  }
}
