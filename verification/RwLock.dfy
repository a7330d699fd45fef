/** The reader/writer lock, instruction by instruction: any number of threads in any interleaving,
    memory being sequentially consistent. */
module RwLock {

  /** Where a thread is: outside, taking the lock for reading or for writing, or inside. */
  datatype Pc =
    | Out
    | RSpin  // while the write flag is set
    | RInc   // about to count itself
    | RCheck // about to look at the write flag again
    | RBack  // about to take back the count
    | RIn
    | WSpin  // test and set the write flag
    | WWait  // while there are readers
    | WIn

  datatype Lock = Lock(write: bool, read: nat, threads: seq<Pc>)

  /** What a thread outside may start. */
  datatype Action = LockRead | LockWrite | Go

  predicate Enabled(s: Lock, i: nat, a: Action) {
    i < |s.threads| && (s.threads[i].Out? <==> !a.Go?)
  }

  function At(s: Lock, i: nat, pc: Pc): Lock
    requires i < |s.threads|
  {
    s.(threads := s.threads[i := pc])
  }

  /** One instruction of thread `i`. */
  ghost function Step(s: Lock, i: nat, a: Action): Lock
    requires Enabled(s, i, a) && Counts(s)
  {
    TotalUpdate(s.threads, i, Out, Trying);
    TotalUpdate(s.threads, i, Out, Reading);
    match s.threads[i]
    case Out => At(s, i, if a.LockRead? then RSpin else WSpin)
    case RSpin => if s.write then s else At(s, i, RInc)
    case RInc => At(s.(read := s.read + 1), i, RCheck)
    case RCheck => At(s, i, if s.write then RBack else RIn)
    case RBack => At(s.(read := s.read - 1), i, RSpin)
    case RIn => At(s.(read := s.read - 1), i, Out)
    case WSpin => if s.write then s else At(s.(write := true), i, WWait)
    case WWait => if s.read > 0 then s else At(s, i, WIn)
    case WIn => At(s.(write := false), i, Out)
  }

  /** Threads that are counted as readers but not inside, that are inside for reading, that have set
      the write flag but are not inside, and that are inside for writing. */
  datatype Kind = Trying | Reading | Waiting | Writing

  function Has(pc: Pc, k: Kind): nat {
    match k
    case Trying => if pc.RCheck? || pc.RBack? then 1 else 0
    case Reading => if pc.RIn? then 1 else 0
    case Waiting => if pc.WWait? then 1 else 0
    case Writing => if pc.WIn? then 1 else 0
  }

  function Total(threads: seq<Pc>, k: Kind): nat {
    if threads == [] then 0 else Total(threads[..|threads| - 1], k) + Has(threads[|threads| - 1], k)
  }

  lemma {:induction false} TotalUpdate(threads: seq<Pc>, i: nat, pc: Pc, k: Kind)
    requires i < |threads|
    ensures Total(threads[i := pc], k) == Total(threads, k) - Has(threads[i], k) + Has(pc, k)
    ensures Has(threads[i], k) <= Total(threads, k)
    decreases |threads|
  {
    var n := |threads| - 1;
    if i < n {
      TotalUpdate(threads[..n], i, pc, k);
      assert threads[i := pc][..n] == threads[..n][i := pc];
    } else {
      assert threads[i := pc][..n] == threads[..n];
    }
  }

  /** The read count counts the readers that are inside or trying to come in. */
  ghost predicate Counts(s: Lock) { s.read == Total(s.threads, Trying) + Total(s.threads, Reading) }

  /** The counters count, and a thread inside for writing is alone. */
  ghost predicate Inv(s: Lock) {
    && Counts(s) && Total(s.threads, Waiting) + Total(s.threads, Writing) == (if s.write then 1 else 0)
    && (Total(s.threads, Writing) > 0 ==> Total(s.threads, Reading) == 0)
  }

  lemma Became(s: Lock, i: nat, pc: Pc)
    requires i < |s.threads|
    ensures forall k :: Total(s.threads[i := pc], k) == Total(s.threads, k) - Has(s.threads[i], k) + Has(pc, k)
    ensures forall k :: Has(s.threads[i], k) <= Total(s.threads, k)
  {
    forall k { TotalUpdate(s.threads, i, pc, k); }
  }

  lemma StepInv(s: Lock, i: nat, a: Action)
    requires Inv(s) && Enabled(s, i, a)
    ensures Inv(Step(s, i, a))
  {
    Became(s, i, Step(s, i, a).threads[i]);
    hide Total;
  }

  /** How many threads are inside. */
  datatype Holders = Holders(readers: nat, writers: nat)

  function Inside(s: Lock): Holders { Holders(Total(s.threads, Reading), Total(s.threads, Writing)) }

  /** What may happen to a lock: a reader comes in when no writer is inside, a writer when nobody is; or
      one of them leaves. */
  predicate Allowed(h: Holders, j: Holders) {
    || j == h
    || (h.writers == 0 && j == h.(readers := h.readers + 1))
    || (h.writers == 0 && h.readers == 0 && j == h.(writers := 1))
    || (h.readers > 0 && j == h.(readers := h.readers - 1))
    || (h.writers > 0 && j == h.(writers := h.writers - 1))
  }

  /** Every instruction does what a lock may do. */
  lemma StepAllowed(s: Lock, i: nat, a: Action)
    requires Inv(s) && Enabled(s, i, a)
    ensures Allowed(Inside(s), Inside(Step(s, i, a)))
  {
    Became(s, i, Step(s, i, a).threads[i]);
    hide Total;
  }

  /** `n` threads, none of them inside. */
  function Initial(n: nat): Lock { Lock(false, 0, seq(n, _ => Out)) }

  ghost predicate Next(s: Lock, t: Lock) {
    exists i: nat, a :: Enabled(s, i, a) && Counts(s) && t == Step(s, i, a)
  }

  ghost predicate Behaviour(run: seq<Lock>) {
    && run != [] && (exists n: nat :: run[0] == Initial(n))
    && forall j :: 0 < j < |run| ==> Next(run[j - 1], run[j])
  }

  lemma {:induction false} NobodyInside(n: nat, k: Kind)
    ensures Total(seq(n, _ => Out), k) == 0
  {
    if n > 0 {
      NobodyInside(n - 1, k);
      assert seq(n, _ => Out)[..n - 1] == seq(n - 1, _ => Out);
    }
  }

  /** In every run the lock never admits a writer together with another holder. */
  lemma {:induction false} Exclusion(run: seq<Lock>, j: nat)
    requires Behaviour(run) && j < |run|
    ensures Inv(run[j])
    ensures var h := Inside(run[j]); h.writers <= 1 && (h.writers == 1 ==> h.readers == 0)
  {
    if j == 0 {
      var n: nat :| run[0] == Initial(n);
      forall k ensures Total(Initial(n).threads, k) == 0 { NobodyInside(n, k); }
    } else {
      Exclusion(run, j - 1);
      assert Next(run[j - 1], run[j]);
      var i: nat, a :| Enabled(run[j - 1], i, a) && Counts(run[j - 1]) && run[j] == Step(run[j - 1], i, a);
      StepInv(run[j - 1], i, a);
    }
  }

  // ---------------------------------------------------------------- no deadlock

  predicate ForReading(pc: Pc) { pc.RSpin? || pc.RInc? || pc.RCheck? || pc.RBack? || pc.RIn? }

  /** A thread that wants the lock, for reading or for writing, goes on to want or have it so; it is outside again only after
      it was inside. */
  lemma StepPath(s: Lock, i: nat, a: Action)
    requires Counts(s) && Enabled(s, i, a)
    ensures var x, y := s.threads[i], Step(s, i, a).threads[i];
            && Step(s, i, a).threads == s.threads[i := y]
            && (x.Out? ==> !y.Out? && !y.RIn? && !y.WIn? && (ForReading(y) <==> a.LockRead?))
            && (!x.Out? && !y.Out? ==> (ForReading(x) <==> ForReading(y)))
            && (!x.Out? && y.Out? ==> x.RIn? || x.WIn?)
  {
  }

  /** How far a thread is from having taken and left the lock for writing; and for reading, where one has to
      start again while the write flag is set. */
  function WriteToil(pc: Pc): nat {
    match pc
    case WSpin => 3
    case WWait => 2
    case WIn => 1
    case _ => 0
  }

  function ReadToil(pc: Pc, write: bool): nat {
    match pc
    case RIn => 1
    case RCheck => if write then 4 else 2
    case RBack => if write then 3 else 5
    case RSpin => if write then 2 else 4
    case RInc => if write then 2 else 3
    case _ => 0
  }

  function Toil(threads: seq<Pc>, f: Pc -> nat): nat {
    if threads == [] then 0 else Toil(threads[..|threads| - 1], f) + f(threads[|threads| - 1])
  }

  lemma {:induction false} ToilUpdate(threads: seq<Pc>, i: nat, pc: Pc, f: Pc -> nat)
    requires i < |threads|
    ensures Toil(threads[i := pc], f) == Toil(threads, f) - f(threads[i]) + f(pc)
    ensures f(threads[i]) <= Toil(threads, f)
    decreases |threads|
  {
    var n := |threads| - 1;
    if i < n {
      ToilUpdate(threads[..n], i, pc, f);
      assert threads[i := pc][..n] == threads[..n][i := pc];
    } else {
      assert threads[i := pc][..n] == threads[..n];
    }
  }

  function Writes(s: Lock): nat { Toil(s.threads, WriteToil) }

  function Reads(s: Lock): nat { Toil(s.threads, pc => ReadToil(pc, s.write)) }

  predicate Quiet(s: Lock) { forall i :: 0 <= i < |s.threads| ==> s.threads[i].Out? }

  lemma {:induction false} TotalZero(threads: seq<Pc>, k: Kind)
    requires forall i :: 0 <= i < |threads| ==> Has(threads[i], k) == 0
    ensures Total(threads, k) == 0
  {
    if threads != [] { TotalZero(threads[..|threads| - 1], k); }
  }

  /** Unless nobody wants the lock there is a thread whose next instruction brings it further. */
  lemma Advance(s: Lock) returns (i: nat)
    requires Inv(s) && !Quiet(s)
    ensures Enabled(s, i, Go)
    ensures var t := Step(s, i, Go); Writes(t) < Writes(s) || (Writes(t) == Writes(s) && t.write == s.write && Reads(t) < Reads(s))
  {
    i := Choose(s);
    var t := Step(s, i, Go);
    ToilUpdate(s.threads, i, t.threads[i], WriteToil);
    ToilUpdate(s.threads, i, t.threads[i], pc => ReadToil(pc, s.write));
    hide Toil, Inv;
  }

  /** A thread that can go on, those inside first, then those that try to come in or out, then those that want to. */
  lemma Choose(s: Lock) returns (i: nat)
    requires Inv(s) && !Quiet(s)
    ensures i < |s.threads| && !s.threads[i].Out?
    ensures s.threads[i].WWait? ==> s.read == 0
    ensures s.threads[i].RInc? || s.threads[i].RSpin? || s.threads[i].WSpin? ==> !s.write
  {
    if j: nat :| j < |s.threads| && (s.threads[j].WIn? || s.threads[j].RIn? || s.threads[j].RCheck? || s.threads[j].RBack?) {
      i := j;
    } else {
      TotalZero(s.threads, Trying);
      TotalZero(s.threads, Reading);
      TotalZero(s.threads, Writing);
      if j: nat :| j < |s.threads| && s.threads[j].WWait? {
        i := j;
      } else {
        TotalZero(s.threads, Waiting);
        i :| i < |s.threads| && !s.threads[i].Out?;
      }
    }
  }

  /** A run from `s`. */
  ghost predicate From(s: Lock, run: seq<Lock>) {
    run != [] && run[0] == s && forall j :: 0 < j < |run| ==> Next(run[j - 1], run[j])
  }

  lemma FromAfter(s: Lock, t: Lock, run: seq<Lock>) returns (more: seq<Lock>)
    requires Next(s, t) && From(t, run)
    ensures From(s, more) && more[|more| - 1] == run[|run| - 1]
  {
    more := [s] + run;
    forall j | 0 < j < |more| ensures Next(more[j - 1], more[j]) {
      if j > 1 { assert more[j] == run[j - 1] && more[j - 1] == run[j - 2]; }
    }
  }

  /** From every state that can be reached there is a way to one where everybody has got in and out again: nobody is
      locked out for good. */
  lemma {:induction false} NoDeadlock(s: Lock) returns (run: seq<Lock>)
    requires Inv(s)
    ensures From(s, run)
    ensures var t := run[|run| - 1]; Inv(t) && Quiet(t) && |t.threads| == |s.threads| && !t.write && t.read == 0
    decreases Writes(s), Reads(s)
  {
    hide Writes, Reads;
    if Quiet(s) {
      run := [s];
      QuietFree(s);
    } else {
      var i := Advance(s);
      var t := Step(s, i, Go);
      StepInv(s, i, Go);
      assert Next(s, t);
      run := NoDeadlock(t);
      run := FromAfter(s, t, run);
    }
  }

  lemma QuietFree(s: Lock)
    requires Inv(s) && Quiet(s)
    ensures !s.write && s.read == 0
  {
    forall k ensures Total(s.threads, k) == 0 { TotalZero(s.threads, k); }
  }
}
