/** Copy-on-update memory: any number of readers and writers share an object that points at the current
    copy of the data, behind the reader/writer lock.  Each access to shared memory is a step of its
    own, in any interleaving. */
module Stm {
  import opened RwLock

  /** Pointers to copies are their numbers. */
  const NULL := -1

  /** A copy of the data. */
  datatype Copy = Copy(ref: nat, freed: bool)

  /** Where an agent is. */
  datatype Place =
    | Idle
    // reading: about to take the lock; with it; having loaded the pointer; having counted itself
    | WantRead | ReadHold | ReadGot(got: int) | ReadHave(got: int) | ReadDone(got: int)
    // updating with copy `n`: about to take the lock; with it; having loaded the old pointer, stored the new
    | WantWrite(n: int) | WriteHold(n: int) | WriteGot(n: int, was: int) | WriteStored(was: int)
    // taking the last copy away: with the lock; about to free it; before and after the pointer is cleared
    | WantClear | ClearHold | ClearFree(c: int) | ClearSpent(c: int) | ClearNone | ClearDone
    // giving up copy `d` and keeping another; about to free it
    | Drop(d: int, keep: int) | Free(c: int, keep: int)

  /** An agent, with the copy it has read last. */
  datatype Agent = Agent(last: int, at: Place)

  datatype Shared = Shared(lock: Holders, copy: int, copies: seq<Copy>, agents: seq<Agent>)

  /** What an idle agent may start: read, update, clear, or give up the copy read last. */
  datatype Start = Read | Update | Clear | Delete | Proceed

  predicate Ready(s: Shared, i: nat, a: Start) {
    i < |s.agents| && (s.agents[i].at.Idle? <==> !a.Proceed?)
  }

  predicate Pointer(p: int, n: nat) { NULL <= p < n }

  predicate Valid(p: int, n: nat) { 0 <= p < n }

  /** The pointers of an agent are NULL or those of copies. */
  predicate Known(x: Agent, n: nat) {
    Pointer(x.last, n) &&
    match x.at
    case ReadGot(got) => Pointer(got, n)
    case ReadHave(got) => Pointer(got, n)
    case ReadDone(got) => Pointer(got, n)
    case WantWrite(m) => Valid(m, n)
    case WriteHold(m) => Valid(m, n)
    case WriteGot(m, was) => Valid(m, n) && Pointer(was, n)
    case WriteStored(was) => Pointer(was, n)
    case ClearFree(c) => Valid(c, n)
    case ClearSpent(c) => Valid(c, n)
    case Drop(d, keep) => Pointer(d, n) && Pointer(keep, n) && x.last == NULL
    case Free(c, keep) => Valid(c, n) && Pointer(keep, n) && x.last == NULL
    case _ => true
  }

  predicate Proper(s: Shared) {
    |s.copies| > 0 && Pointer(s.copy, |s.copies|) && forall i :: 0 <= i < |s.agents| ==> Known(s.agents[i], |s.copies|)
  }

  // ---------------------------------------------------------------- steps

  function Put(s: Shared, i: nat, x: Agent): Shared
    requires i < |s.agents|
  {
    s.(agents := s.agents[i := x])
  }

  function Move(s: Shared, i: nat, at: Place): Shared
    requires i < |s.agents|
  {
    Put(s, i, s.agents[i].(at := at))
  }

  function SetCopy(s: Shared, c: int, v: Copy): Shared
    requires Valid(c, |s.copies|)
  {
    s.(copies := s.copies[c := v])
  }

  function Lower(n: nat): nat { if n == 0 then 0 else n - 1 }

  /** A reference less: agent `i` becomes `last` if it was the last, else `more`. */
  function Release(s: Shared, i: nat, c: int, last: Agent, more: Agent): Shared
    requires i < |s.agents| && Valid(c, |s.copies|)
  {
    var v := s.copies[c];
    if v.ref <= 1 then Put(SetCopy(s, c, v.(ref := 0)), i, last)
    else Put(SetCopy(s, c, v.(ref := v.ref - 1)), i, more)
  }

  function LockRead(s: Shared, i: nat): Shared
    requires i < |s.agents|
  {
    if s.lock.writers > 0 then s else Move(s.(lock := s.lock.(readers := s.lock.readers + 1)), i, ReadHold)
  }

  /** Take a reference to the copy whose pointer was loaded, if there is one. */
  function GrabCopy(s: Shared, i: nat, got: int): Shared
    requires i < |s.agents| && Pointer(got, |s.copies|)
  {
    if got == NULL then Move(s, i, ReadHave(got))
    else Move(SetCopy(s, got, s.copies[got].(ref := s.copies[got].ref + 1)), i, ReadHave(got))
  }

  function UnlockRead(s: Shared, i: nat, got: int): Shared
    requires i < |s.agents|
  {
    Move(s.(lock := s.lock.(readers := Lower(s.lock.readers))), i, ReadDone(got))
  }

  /** The copy read is the one read last, and is given up again; or the one read last is. */
  function Compare(s: Shared, i: nat, got: int): Shared
    requires i < |s.agents|
  {
    var last := s.agents[i].last;
    Put(s, i, Agent(NULL, if got == last then Drop(got, last) else Drop(last, got)))
  }

  function LockWrite(s: Shared, i: nat, at: Place): Shared
    requires i < |s.agents|
  {
    if s.lock.writers > 0 || s.lock.readers > 0 then s else Move(s.(lock := s.lock.(writers := 1)), i, at)
  }

  function StoreCopy(s: Shared, i: nat, n: int, was: int): Shared
    requires i < |s.agents|
  {
    Move(s.(copy := n), i, WriteStored(was))
  }

  function UnlockWrite(s: Shared, i: nat, x: Agent): Shared
    requires i < |s.agents|
  {
    Put(s.(lock := s.lock.(writers := 0)), i, x)
  }

  function ClearRelease(s: Shared, i: nat): Shared
    requires i < |s.agents| && Pointer(s.copy, |s.copies|)
  {
    var last := s.agents[i].last;
    if s.copy == NULL then Move(s, i, ClearNone)
    else Release(s, i, s.copy, Agent(last, ClearFree(s.copy)), Agent(last, ClearSpent(s.copy)))
  }

  function FreeCopy(s: Shared, i: nat, c: int, x: Agent): Shared
    requires i < |s.agents| && Valid(c, |s.copies|)
  {
    Put(SetCopy(s, c, s.copies[c].(freed := true)), i, x)
  }

  function ClearStore(s: Shared, i: nat): Shared
    requires i < |s.agents|
  {
    Move(s.(copy := NULL), i, ClearDone)
  }

  function DropCopy(s: Shared, i: nat, d: int, keep: int): Shared
    requires i < |s.agents| && Pointer(d, |s.copies|)
  {
    if d == NULL then Put(s, i, Agent(keep, Idle))
    else Release(s, i, d, Agent(NULL, Free(d, keep)), Agent(keep, Idle))
  }

  function StartStep(s: Shared, i: nat, a: Start): Shared
    requires i < |s.agents|
  {
    match a
    case Read => Move(s, i, WantRead)
    case Update => Move(s.(copies := s.copies + [Copy(1, false)]), i, WantWrite(|s.copies|))
    case Clear => Move(s, i, WantClear)
    case _ => Put(s, i, Agent(NULL, Drop(s.agents[i].last, NULL)))
  }

  function Turn(s: Shared, i: nat, a: Start): Shared
    requires Proper(s) && Ready(s, i, a)
  {
    var x := s.agents[i];
    assert Known(x, |s.copies|);
    match x.at
    case Idle => StartStep(s, i, a)
    case WantRead => LockRead(s, i)
    case ReadHold => Move(s, i, ReadGot(s.copy))
    case ReadGot(got) => GrabCopy(s, i, got)
    case ReadHave(got) => UnlockRead(s, i, got)
    case ReadDone(got) => Compare(s, i, got)
    case WantWrite(n) => LockWrite(s, i, WriteHold(n))
    case WriteHold(n) => Move(s, i, WriteGot(n, s.copy))
    case WriteGot(n, was) => StoreCopy(s, i, n, was)
    case WriteStored(was) => UnlockWrite(s, i, Agent(NULL, Drop(was, x.last)))
    case WantClear => LockWrite(s, i, ClearHold)
    case ClearHold => ClearRelease(s, i)
    case ClearFree(c) => FreeCopy(s, i, c, x.(at := ClearSpent(c)))
    case ClearSpent(_) => ClearStore(s, i)
    case ClearNone => ClearStore(s, i)
    case ClearDone => UnlockWrite(s, i, x.(at := Idle))
    case Drop(d, keep) => DropCopy(s, i, d, keep)
    case Free(c, keep) => FreeCopy(s, i, c, Agent(keep, Idle))
  }

  // ---------------------------------------------------------------- counting

  /** Agents that hold the lock for reading; for writing, without and with having looked at the object;
      and, of copy `c`: references to it, agents about to free it, that have loaded its pointer to take
      a reference, that have loaded it as the one to replace, that have given up the object's
      reference to it; and that have loaded NULL. */
  datatype Share = Reader | Plain | Sure | Ref | Freer | Got | Old | Spent | OldNone

  function Is(b: bool): nat { if b then 1 else 0 }

  function Part(x: Agent, k: Share, c: int): nat {
    Is(k.Ref? && x.last == c) +
    match x.at
    case Idle => 0
    case WantRead => 0
    case ReadHold => Is(k.Reader?)
    case ReadGot(got) => Is(k.Reader? || (k.Got? && got == c))
    case ReadHave(got) => Is(k.Reader? || (k.Ref? && got == c))
    case ReadDone(got) => Is(k.Ref? && got == c)
    case WantWrite(n) => Is(k.Ref? && n == c)
    case WriteHold(n) => Is(k.Plain? || (k.Ref? && n == c))
    case WriteGot(n, was) =>
      Is(k.Sure? || (k.Ref? && n == c) || (k.Old? && was == c) || (k.OldNone? && was == NULL))
    case WriteStored(was) => Is(k.Plain? || (k.Ref? && was == c))
    case WantClear => 0
    case ClearHold => Is(k.Plain?)
    case ClearFree(d) => Is(k.Sure? || (d == c && (k.Freer? || k.Spent?)))
    case ClearSpent(d) => Is(k.Sure? || (d == c && k.Spent?))
    case ClearNone => Is(k.Sure? || k.OldNone?)
    case ClearDone => Is(k.Plain?)
    case Drop(d, keep) => Is(k.Ref? && d == c) + Is(k.Ref? && keep == c)
    case Free(d, keep) => Is(k.Freer? && d == c) + Is(k.Ref? && keep == c)
  }

  function Sum(agents: seq<Agent>, k: Share, c: int): nat {
    if agents == [] then 0 else Sum(agents[..|agents| - 1], k, c) + Part(agents[|agents| - 1], k, c)
  }

  lemma {:induction false} SumUpdate(agents: seq<Agent>, i: nat, x: Agent, k: Share, c: int)
    requires i < |agents|
    ensures Sum(agents[i := x], k, c) == Sum(agents, k, c) - Part(agents[i], k, c) + Part(x, k, c)
    ensures Part(agents[i], k, c) <= Sum(agents, k, c)
    decreases |agents|
  {
    hide Part;
    var n := |agents| - 1;
    if i < n {
      SumUpdate(agents[..n], i, x, k, c);
      assert agents[i := x][..n] == agents[..n][i := x];
    } else {
      assert agents[i := x][..n] == agents[..n];
    }
  }

  lemma {:induction false} SumNone(agents: seq<Agent>, k: Share, c: nat)
    requires forall i :: 0 <= i < |agents| ==> Known(agents[i], c)
    requires k.Ref? || k.Freer? || k.Got? || k.Old? || k.Spent?
    ensures Sum(agents, k, c) == 0
  {
    if agents != [] {
      assert Known(agents[|agents| - 1], c);
      SumNone(agents[..|agents| - 1], k, c);
    }
  }

  /** Who has loaded a pointer holds the lock. */
  lemma {:induction false} LoadedInside(agents: seq<Agent>, c: int)
    ensures Sum(agents, Got, c) <= Sum(agents, Reader, 0)
    ensures Sum(agents, Old, c) + Sum(agents, Spent, c) + (if c == NULL then 0 else Sum(agents, OldNone, 0)) <= Sum(agents, Sure, 0)
  {
    if agents != [] { LoadedInside(agents[..|agents| - 1], c); }
  }

  // ---------------------------------------------------------------- the invariant

  function Writers(s: Shared): nat { Sum(s.agents, Plain, 0) + Sum(s.agents, Sure, 0) }

  /** Who is inside the lock, and that what a writer has found missing is missing. */
  predicate LockOk(s: Shared) {
    && s.lock.readers == Sum(s.agents, Reader, 0) && s.lock.writers == Writers(s)
    && s.lock.writers <= 1 && (s.lock.writers > 0 ==> s.lock.readers == 0)
    && (Sum(s.agents, OldNone, 0) > 0 ==> s.copy == NULL)
  }

  /** The object's own reference to its copy counts until it is given up. */
  function Own(s: Shared, c: int): nat { Is(s.copy == c && Sum(s.agents, Spent, c) == 0) }

  /** The references to copy `c` are counted.  Without any it is freed, or one agent is about to free it.
      The pointer an agent has loaded while holding the lock is still the current one. */
  predicate CopyOk(s: Shared, c: int)
    requires Valid(c, |s.copies|)
  {
    var v := s.copies[c];
    && v.ref == Sum(s.agents, Ref, c) + Own(s, c)
    && Sum(s.agents, Freer, c) <= 1
    && (v.ref == 0 <==> v.freed || Sum(s.agents, Freer, c) == 1) && !(v.freed && Sum(s.agents, Freer, c) == 1)
    && (Sum(s.agents, Got, c) + Sum(s.agents, Old, c) + Sum(s.agents, Spent, c) > 0 ==> s.copy == c)
  }

  /** The copies that are accounted for, with the lock. */
  function Balanced(s: Shared): set<int> {
    set c | 0 <= c < |s.copies| && LockOk(s) && CopyOk(s, c)
  }

  ghost predicate Consistent(s: Shared) {
    Proper(s) && LockOk(s) && forall c :: 0 <= c < |s.copies| ==> CopyOk(s, c)
  }

  // ---------------------------------------------------------------- each step keeps it

  /** Agent `i` becomes `x`: what the sums are then. */
  lemma Became(s: Shared, i: nat, x: Agent, c: int)
    requires i < |s.agents|
    ensures var t := s.agents[i := x];
            var y := s.agents[i];
            && Sum(t, Reader, 0) == Sum(s.agents, Reader, 0) - Part(y, Reader, 0) + Part(x, Reader, 0)
            && Sum(t, Plain, 0) == Sum(s.agents, Plain, 0) - Part(y, Plain, 0) + Part(x, Plain, 0)
            && Sum(t, Sure, 0) == Sum(s.agents, Sure, 0) - Part(y, Sure, 0) + Part(x, Sure, 0)
            && Sum(t, OldNone, 0) == Sum(s.agents, OldNone, 0) - Part(y, OldNone, 0) + Part(x, OldNone, 0)
            && Sum(t, Ref, c) == Sum(s.agents, Ref, c) - Part(y, Ref, c) + Part(x, Ref, c)
            && Sum(t, Freer, c) == Sum(s.agents, Freer, c) - Part(y, Freer, c) + Part(x, Freer, c)
            && Sum(t, Got, c) == Sum(s.agents, Got, c) - Part(y, Got, c) + Part(x, Got, c)
            && Sum(t, Old, c) == Sum(s.agents, Old, c) - Part(y, Old, c) + Part(x, Old, c)
            && Sum(t, Spent, c) == Sum(s.agents, Spent, c) - Part(y, Spent, c) + Part(x, Spent, c)
    ensures var y := s.agents[i];
            && Part(y, Reader, 0) <= Sum(s.agents, Reader, 0) && Part(y, Plain, 0) <= Sum(s.agents, Plain, 0)
            && Part(y, Sure, 0) <= Sum(s.agents, Sure, 0) && Part(y, OldNone, 0) <= Sum(s.agents, OldNone, 0)
            && Part(y, Ref, c) <= Sum(s.agents, Ref, c) && Part(y, Freer, c) <= Sum(s.agents, Freer, c)
            && Part(y, Got, c) <= Sum(s.agents, Got, c) && Part(y, Old, c) <= Sum(s.agents, Old, c)
            && Part(y, Spent, c) <= Sum(s.agents, Spent, c)
  {
    forall k, d: int
      ensures Sum(s.agents[i := x], k, d) == Sum(s.agents, k, d) - Part(s.agents[i], k, d) + Part(x, k, d)
      ensures Part(s.agents[i], k, d) <= Sum(s.agents, k, d) {
      SumUpdate(s.agents, i, x, k, d);
    }
  }

  /** A step that leaves the lock and the object alone, by an agent that stays outside or inside. */
  lemma LockKept(s: Shared, t: Shared, i: nat, x: Agent)
    requires i < |s.agents| && LockOk(s)
    requires t.agents == s.agents[i := x] && t.lock == s.lock && t.copy == s.copy
    requires Part(x, Reader, 0) == Part(s.agents[i], Reader, 0) && Part(x, OldNone, 0) == Part(s.agents[i], OldNone, 0)
    requires Part(x, Plain, 0) + Part(x, Sure, 0) == Part(s.agents[i], Plain, 0) + Part(s.agents[i], Sure, 0)
    ensures LockOk(t)
  {
    hide Part, Sum;
    Became(s, i, x, 0);
  }

  /** A step that does not concern copy `c`. */
  lemma CopyKept(s: Shared, t: Shared, i: nat, x: Agent, c: int)
    requires i < |s.agents| && Valid(c, |s.copies|) && |t.copies| >= |s.copies| && CopyOk(s, c)
    requires t.agents == s.agents[i := x] && t.copy == s.copy && t.copies[c] == s.copies[c]
    requires forall k: Share :: k.Ref? || k.Freer? || k.Got? || k.Old? || k.Spent? ==> Part(x, k, c) == Part(s.agents[i], k, c)
    ensures CopyOk(t, c)
  {
    hide Part, Sum;
    Became(s, i, x, c);
  }

  lemma LockReadOk(s: Shared, i: nat, last: int, c: int)
    requires i < |s.agents| && s.agents[i] == Agent(last, WantRead) && Known(s.agents[i], |s.copies|)
    requires Pointer(s.copy, |s.copies|) && c in Balanced(s)
    ensures c in Balanced(LockRead(s, i))
  {
    hide Sum, Known;
    var t := LockRead(s, i);
    Became(s, i, t.agents[i], c);
    LoadedInside(s.agents, c);
    assert LockOk(t) && CopyOk(t, c);
  }

  lemma ReadHoldOk(s: Shared, i: nat, last: int, c: int)
    requires i < |s.agents| && s.agents[i] == Agent(last, ReadHold) && Known(s.agents[i], |s.copies|)
    requires Pointer(s.copy, |s.copies|) && c in Balanced(s)
    ensures c in Balanced(Move(s, i, ReadGot(s.copy)))
  {
    hide Sum, Known;
    var t := Move(s, i, ReadGot(s.copy));
    Became(s, i, t.agents[i], c);
    LoadedInside(s.agents, c);
    assert LockOk(t) && CopyOk(t, c);
  }

  lemma GrabOk(s: Shared, i: nat, last: int, got: int, c: int)
    requires i < |s.agents| && s.agents[i] == Agent(last, ReadGot(got)) && Known(s.agents[i], |s.copies|)
    requires Pointer(s.copy, |s.copies|) && c in Balanced(s)
    ensures c in Balanced(GrabCopy(s, i, got))
  {
    var t := GrabCopy(s, i, got);
    Became(s, i, t.agents[i], c);
    LoadedInside(s.agents, c);
    hide Sum, Known;
    assert LockOk(t) && CopyOk(t, c);
  }

  lemma UnlockReadOk(s: Shared, i: nat, last: int, got: int, c: int)
    requires i < |s.agents| && s.agents[i] == Agent(last, ReadHave(got)) && Known(s.agents[i], |s.copies|)
    requires Pointer(s.copy, |s.copies|) && c in Balanced(s)
    ensures c in Balanced(UnlockRead(s, i, got))
  {
    hide Sum, Known;
    var t := UnlockRead(s, i, got);
    Became(s, i, t.agents[i], c);
    LoadedInside(s.agents, c);
    assert LockOk(t) && CopyOk(t, c);
  }

  lemma CompareOk(s: Shared, i: nat, last: int, got: int, c: int)
    requires i < |s.agents| && s.agents[i] == Agent(last, ReadDone(got)) && Known(s.agents[i], |s.copies|)
    requires Pointer(s.copy, |s.copies|) && c in Balanced(s)
    ensures c in Balanced(Compare(s, i, got))
  {
    hide Sum, Known;
    var t := Compare(s, i, got);
    Became(s, i, t.agents[i], c);
    LoadedInside(s.agents, c);
    assert LockOk(t) && CopyOk(t, c);
  }

  lemma LockWriteOk(s: Shared, i: nat, last: int, n: int, c: int)
    requires i < |s.agents| && s.agents[i] == Agent(last, WantWrite(n)) && Known(s.agents[i], |s.copies|)
    requires Pointer(s.copy, |s.copies|) && c in Balanced(s)
    ensures c in Balanced(LockWrite(s, i, WriteHold(n)))
  {
    hide Sum, Known;
    var t := LockWrite(s, i, WriteHold(n));
    Became(s, i, t.agents[i], c);
    LoadedInside(s.agents, c);
    assert LockOk(t) && CopyOk(t, c);
  }

  lemma WriteHoldOk(s: Shared, i: nat, last: int, n: int, c: int)
    requires i < |s.agents| && s.agents[i] == Agent(last, WriteHold(n)) && Known(s.agents[i], |s.copies|)
    requires Pointer(s.copy, |s.copies|) && c in Balanced(s)
    ensures c in Balanced(Move(s, i, WriteGot(n, s.copy)))
  {
    hide Sum, Known;
    var t := Move(s, i, WriteGot(n, s.copy));
    Became(s, i, t.agents[i], c);
    LoadedInside(s.agents, c);
    assert LockOk(t) && CopyOk(t, c);
  }

  lemma StoredParts(last: int, n: int, was: int)
    ensures forall k, d ::
              Part(Agent(last, WriteGot(n, was)), k, d) == Is(k.Sure?) + Is(k.OldNone? && was == NULL)
                + Is(k.Ref? && last == d) + Is(k.Ref? && n == d) + Is(k.Old? && was == d)
    ensures forall k, d ::
              Part(Agent(last, WriteStored(was)), k, d) == Is(k.Plain?) + Is(k.Ref? && last == d) + Is(k.Ref? && was == d)
  {
  }

  lemma OldIsCurrent(s: Shared, i: nat, last: int, n: int, was: int)
    requires i < |s.agents| && s.agents[i] == Agent(last, WriteGot(n, was)) && Known(s.agents[i], |s.copies|) && LockOk(s)
    requires Valid(was, |s.copies|) ==> CopyOk(s, was)
    ensures s.copy == was && Sum(s.agents, OldNone, 0) == Is(was == NULL) && Sum(s.agents, Sure, 0) == 1
  {
    hide Sum, Part;
    StoredParts(last, n, was);
    Became(s, i, s.agents[i], was);
    LoadedInside(s.agents, was);
    LoadedInside(s.agents, 0);
  }

  /** Storing the new pointer: the only agent inside the lock becomes one without a loaded pointer. */
  lemma StoreSums(s: Shared, i: nat, last: int, n: int, was: int, c: int)
    requires i < |s.agents| && s.agents[i] == Agent(last, WriteGot(n, was)) && Known(s.agents[i], |s.copies|) && LockOk(s)
    requires Valid(c, |s.copies|) && CopyOk(s, c) && s.copy == was
    requires Sum(s.agents, OldNone, 0) == Is(was == NULL) && Sum(s.agents, Sure, 0) == 1
    ensures var t := StoreCopy(s, i, n, was);
            && LockOk(t) && Sum(t.agents, Got, c) == 0 && Sum(t.agents, Old, c) == 0 && Sum(t.agents, Spent, c) == 0
            && Sum(s.agents, Spent, c) == 0 && Sum(t.agents, Freer, c) == Sum(s.agents, Freer, c)
            && Sum(t.agents, Ref, c) == Sum(s.agents, Ref, c) - Is(n == c) + Is(was == c)
  {
    hide Sum, Known, Part;
    var t := StoreCopy(s, i, n, was);
    StoredParts(last, n, was);
    Became(s, i, t.agents[i], c);
    LoadedInside(s.agents, c);
  }

  lemma StoreOk(s: Shared, i: nat, last: int, n: int, was: int, c: int)
    requires i < |s.agents| && s.agents[i] == Agent(last, WriteGot(n, was)) && Known(s.agents[i], |s.copies|)
    requires Pointer(s.copy, |s.copies|) && c in Balanced(s)
    requires Valid(was, |s.copies|) ==> CopyOk(s, was)
    ensures c in Balanced(StoreCopy(s, i, n, was))
  {
    hide Sum, Known, Part, LockOk;
    OldIsCurrent(s, i, last, n, was);
    assert LockOk(s) && CopyOk(s, c);
    StoreSums(s, i, last, n, was, c);
    assert CopyOk(StoreCopy(s, i, n, was), c);
  }

  lemma UnlockWriteOk(s: Shared, i: nat, last: int, was: int, c: int)
    requires i < |s.agents| && s.agents[i] == Agent(last, WriteStored(was)) && Known(s.agents[i], |s.copies|)
    requires Pointer(s.copy, |s.copies|) && c in Balanced(s)
    ensures c in Balanced(UnlockWrite(s, i, Agent(NULL, Drop(was, last))))
  {
    hide Sum, Known;
    var t := UnlockWrite(s, i, Agent(NULL, Drop(was, last)));
    Became(s, i, t.agents[i], c);
    LoadedInside(s.agents, c);
    assert LockOk(t) && CopyOk(t, c);
  }

  lemma LockClearOk(s: Shared, i: nat, last: int, c: int)
    requires i < |s.agents| && s.agents[i] == Agent(last, WantClear) && Known(s.agents[i], |s.copies|)
    requires Pointer(s.copy, |s.copies|) && c in Balanced(s)
    ensures c in Balanced(LockWrite(s, i, ClearHold))
  {
    hide Sum, Known;
    var t := LockWrite(s, i, ClearHold);
    Became(s, i, t.agents[i], c);
    LoadedInside(s.agents, c);
    assert LockOk(t) && CopyOk(t, c);
  }

  lemma ClearParts(last: int, d: int)
    ensures forall k, e :: Part(Agent(last, ClearHold), k, e) == Is(k.Plain?) + Is(k.Ref? && last == e)
    ensures forall k, e ::
              Part(Agent(last, ClearFree(d)), k, e) == Is(k.Sure?) + Is(k.Ref? && last == e) + Is((k.Freer? || k.Spent?) && d == e)
    ensures forall k, e ::
              Part(Agent(last, ClearSpent(d)), k, e) == Is(k.Sure?) + Is(k.Ref? && last == e) + Is(k.Spent? && d == e)
  {
  }

  lemma ClearLastOk(s: Shared, i: nat, last: int, d: int, c: int)
    requires i < |s.agents| && s.agents[i] == Agent(last, ClearHold) && Known(s.agents[i], |s.copies|)
    requires Pointer(s.copy, |s.copies|) && c in Balanced(s)
    requires d == s.copy != NULL && s.copies[d].ref <= 1
    ensures c in Balanced(Put(SetCopy(s, d, s.copies[d].(ref := 0)), i, Agent(last, ClearFree(d))))
  {
    hide Part;
    var t := Put(SetCopy(s, d, s.copies[d].(ref := 0)), i, Agent(last, ClearFree(d)));
    ClearParts(last, d);
    LockKept(s, t, i, Agent(last, ClearFree(d)));
    if c == d {
      Became(s, i, Agent(last, ClearFree(d)), d);
      LoadedInside(s.agents, d);
      hide Sum, LockOk;
      assert CopyOk(t, c);
    } else {
      CopyKept(s, t, i, Agent(last, ClearFree(d)), c);
    }
  }

  lemma ClearMoreOk(s: Shared, i: nat, last: int, d: int, c: int)
    requires i < |s.agents| && s.agents[i] == Agent(last, ClearHold) && Known(s.agents[i], |s.copies|)
    requires Pointer(s.copy, |s.copies|) && c in Balanced(s)
    requires d == s.copy != NULL && s.copies[d].ref > 1
    ensures c in Balanced(Put(SetCopy(s, d, s.copies[d].(ref := s.copies[d].ref - 1)), i, Agent(last, ClearSpent(d))))
  {
    hide Part;
    var t := Put(SetCopy(s, d, s.copies[d].(ref := s.copies[d].ref - 1)), i, Agent(last, ClearSpent(d)));
    ClearParts(last, d);
    LockKept(s, t, i, Agent(last, ClearSpent(d)));
    if c == d {
      Became(s, i, Agent(last, ClearSpent(d)), d);
      LoadedInside(s.agents, d);
      hide Sum, LockOk;
      assert CopyOk(t, c);
    } else {
      CopyKept(s, t, i, Agent(last, ClearSpent(d)), c);
    }
  }

  lemma ClearNothingOk(s: Shared, i: nat, last: int, c: int)
    requires i < |s.agents| && s.agents[i] == Agent(last, ClearHold) && Known(s.agents[i], |s.copies|)
    requires Pointer(s.copy, |s.copies|) && c in Balanced(s)
    requires s.copy == NULL
    ensures c in Balanced(Put(s, i, Agent(last, ClearNone)))
  {
    hide Sum, Known;
    var t := Put(s, i, Agent(last, ClearNone));
    Became(s, i, t.agents[i], c);
    LoadedInside(s.agents, c);
    assert LockOk(t) && CopyOk(t, c);
  }

  lemma ClearReleaseOk(s: Shared, i: nat, last: int, c: int)
    requires i < |s.agents| && s.agents[i] == Agent(last, ClearHold) && Known(s.agents[i], |s.copies|)
    requires Pointer(s.copy, |s.copies|) && c in Balanced(s)
    ensures c in Balanced(ClearRelease(s, i))
  {
    hide LockOk, CopyOk;
    if s.copy == NULL { ClearNothingOk(s, i, last, c); }
    else if s.copies[s.copy].ref <= 1 { ClearLastOk(s, i, last, s.copy, c); }
    else { ClearMoreOk(s, i, last, s.copy, c); }
  }

  lemma ClearFreeOk(s: Shared, i: nat, last: int, d: int, c: int)
    requires i < |s.agents| && s.agents[i] == Agent(last, ClearFree(d)) && Known(s.agents[i], |s.copies|)
    requires Pointer(s.copy, |s.copies|) && c in Balanced(s)
    ensures c in Balanced(FreeCopy(s, i, d, Agent(last, ClearSpent(d))))
  {
    var t := FreeCopy(s, i, d, Agent(last, ClearSpent(d)));
    Became(s, i, t.agents[i], c);
    LoadedInside(s.agents, c);
    hide Sum, Known;
    assert LockOk(t) && CopyOk(t, c);
  }

  lemma SpentIsCurrent(s: Shared, i: nat, last: int, d: int)
    requires i < |s.agents| && s.agents[i] == Agent(last, ClearSpent(d)) && Known(s.agents[i], |s.copies|) && CopyOk(s, d)
    ensures s.copy == d
  {
    hide Sum;
    Became(s, i, s.agents[i], d);
  }

  lemma ClearStoreOk(s: Shared, i: nat, last: int, d: int, c: int)
    requires i < |s.agents| && s.agents[i] == Agent(last, ClearSpent(d)) && Known(s.agents[i], |s.copies|)
    requires Pointer(s.copy, |s.copies|) && c in Balanced(s)
    requires CopyOk(s, d)
    ensures c in Balanced(ClearStore(s, i))
  {
    hide Sum, Known;
    var t := ClearStore(s, i);
    SpentIsCurrent(s, i, last, d);
    Became(s, i, t.agents[i], c);
    LoadedInside(s.agents, c);
    assert LockOk(t) && CopyOk(t, c);
  }

  lemma ClearNoneOk(s: Shared, i: nat, last: int, c: int)
    requires i < |s.agents| && s.agents[i] == Agent(last, ClearNone) && Known(s.agents[i], |s.copies|)
    requires Pointer(s.copy, |s.copies|) && c in Balanced(s)
    ensures c in Balanced(ClearStore(s, i))
  {
    hide Sum, Known;
    var t := ClearStore(s, i);
    Became(s, i, t.agents[i], c);
    LoadedInside(s.agents, c);
    assert LockOk(t) && CopyOk(t, c);
  }

  lemma UnlockClearOk(s: Shared, i: nat, last: int, c: int)
    requires i < |s.agents| && s.agents[i] == Agent(last, ClearDone) && Known(s.agents[i], |s.copies|)
    requires Pointer(s.copy, |s.copies|) && c in Balanced(s)
    ensures c in Balanced(UnlockWrite(s, i, Agent(last, Idle)))
  {
    hide Sum, Known;
    var t := UnlockWrite(s, i, Agent(last, Idle));
    Became(s, i, t.agents[i], c);
    LoadedInside(s.agents, c);
    assert LockOk(t) && CopyOk(t, c);
  }

  lemma DropNothingOk(s: Shared, i: nat, last: int, d: int, keep: int, c: int)
    requires i < |s.agents| && s.agents[i] == Agent(last, Drop(d, keep)) && Known(s.agents[i], |s.copies|)
    requires Pointer(s.copy, |s.copies|) && c in Balanced(s)
    requires d == NULL
    ensures c in Balanced(Put(s, i, Agent(keep, Idle)))
  {
    var t := Put(s, i, Agent(keep, Idle));
    Became(s, i, t.agents[i], c);
    LoadedInside(s.agents, c);
    hide Sum, Known;
    assert LockOk(t) && CopyOk(t, c);
  }

  lemma DropLastOk(s: Shared, i: nat, last: int, d: int, keep: int, c: int)
    requires i < |s.agents| && s.agents[i] == Agent(last, Drop(d, keep)) && Known(s.agents[i], |s.copies|)
    requires Pointer(s.copy, |s.copies|) && c in Balanced(s)
    requires d != NULL && s.copies[d].ref <= 1
    ensures c in Balanced(Put(SetCopy(s, d, s.copies[d].(ref := 0)), i, Agent(NULL, Free(d, keep))))
  {
    var t := Put(SetCopy(s, d, s.copies[d].(ref := 0)), i, Agent(NULL, Free(d, keep)));
    LockKept(s, t, i, Agent(NULL, Free(d, keep)));
    if c == d {
      Became(s, i, Agent(NULL, Free(d, keep)), d);
      LoadedInside(s.agents, d);
      hide Sum, LockOk;
    } else {
      CopyKept(s, t, i, Agent(NULL, Free(d, keep)), c);
    }
  }

  lemma DropMoreOk(s: Shared, i: nat, last: int, d: int, keep: int, c: int)
    requires i < |s.agents| && s.agents[i] == Agent(last, Drop(d, keep)) && Known(s.agents[i], |s.copies|)
    requires Pointer(s.copy, |s.copies|) && c in Balanced(s)
    requires d != NULL && s.copies[d].ref > 1
    ensures c in Balanced(Put(SetCopy(s, d, s.copies[d].(ref := s.copies[d].ref - 1)), i, Agent(keep, Idle)))
  {
    var t := Put(SetCopy(s, d, s.copies[d].(ref := s.copies[d].ref - 1)), i, Agent(keep, Idle));
    LockKept(s, t, i, Agent(keep, Idle));
    if c == d {
      Became(s, i, Agent(keep, Idle), d);
      LoadedInside(s.agents, d);
      hide Sum, LockOk;
    } else {
      CopyKept(s, t, i, Agent(keep, Idle), c);
    }
  }

  lemma DropOk(s: Shared, i: nat, last: int, d: int, keep: int, c: int)
    requires i < |s.agents| && s.agents[i] == Agent(last, Drop(d, keep)) && Known(s.agents[i], |s.copies|)
    requires Pointer(s.copy, |s.copies|) && c in Balanced(s)
    ensures c in Balanced(DropCopy(s, i, d, keep))
  {
    hide LockOk, CopyOk;
    if d == NULL { DropNothingOk(s, i, last, d, keep, c); }
    else if s.copies[d].ref <= 1 { DropLastOk(s, i, last, d, keep, c); }
    else { DropMoreOk(s, i, last, d, keep, c); }
  }

  lemma FreeOk(s: Shared, i: nat, last: int, d: int, keep: int, c: int)
    requires i < |s.agents| && s.agents[i] == Agent(last, Free(d, keep)) && Known(s.agents[i], |s.copies|)
    requires Pointer(s.copy, |s.copies|) && c in Balanced(s)
    ensures c in Balanced(FreeCopy(s, i, d, Agent(keep, Idle)))
  {
    var t := FreeCopy(s, i, d, Agent(keep, Idle));
    Became(s, i, t.agents[i], c);
    LoadedInside(s.agents, c);
    hide Sum, Known;
    assert LockOk(t) && CopyOk(t, c);
  }

  // ---------------------------------------------------------------- all runs

  lemma StartOk(s: Shared, i: nat, a: Start, c: int)
    requires Consistent(s) && Ready(s, i, a) && s.agents[i].at.Idle? && Valid(c, |StartStep(s, i, a).copies|)
    ensures c in Balanced(StartStep(s, i, a))
  {
    var t := StartStep(s, i, a);
    assert Known(s.agents[i], |s.copies|);
    LockKept(s, t, i, t.agents[i]);
    if c < |s.copies| {
      assert CopyOk(s, c);
      CopyKept(s, t, i, t.agents[i], c);
    } else {
      Became(s, i, t.agents[i], c);
      NewCopy(s, c);
      hide Sum, Known, Consistent, Proper, LockOk;
    }
  }

  /** No agent knows a copy that is still to be made. */
  lemma NewCopy(s: Shared, c: nat)
    requires Proper(s) && c == |s.copies|
    ensures s.copy != c && Sum(s.agents, Ref, c) == 0 && Sum(s.agents, Freer, c) == 0 && Sum(s.agents, Got, c) == 0
    ensures Sum(s.agents, Old, c) == 0 && Sum(s.agents, Spent, c) == 0
  {
    SumNone(s.agents, Ref, c);
    SumNone(s.agents, Freer, c);
    SumNone(s.agents, Got, c);
    SumNone(s.agents, Old, c);
    SumNone(s.agents, Spent, c);
  }

  lemma TurnOk(s: Shared, i: nat, a: Start, c: int)
    requires Consistent(s) && Ready(s, i, a) && Valid(c, |Turn(s, i, a).copies|)
    ensures c in Balanced(Turn(s, i, a))
  {
    hide LockOk, CopyOk;
    var Agent(last, at) := s.agents[i];
    assert Known(s.agents[i], |s.copies|);
    assert c < |s.copies| ==> CopyOk(s, c);
    match at
    case Idle => StartOk(s, i, a, c);
    case WantRead => LockReadOk(s, i, last, c);
    case ReadHold => ReadHoldOk(s, i, last, c);
    case ReadGot(got) => GrabOk(s, i, last, got, c);
    case ReadHave(got) => UnlockReadOk(s, i, last, got, c);
    case ReadDone(got) => CompareOk(s, i, last, got, c);
    case WantWrite(n) => LockWriteOk(s, i, last, n, c);
    case WriteHold(n) => WriteHoldOk(s, i, last, n, c);
    case WriteGot(n, was) => StoreOk(s, i, last, n, was, c);
    case WriteStored(was) => UnlockWriteOk(s, i, last, was, c);
    case WantClear => LockClearOk(s, i, last, c);
    case ClearHold => ClearReleaseOk(s, i, last, c);
    case ClearFree(d) => ClearFreeOk(s, i, last, d, c);
    case ClearSpent(d) => ClearStoreOk(s, i, last, d, c);
    case ClearNone => ClearNoneOk(s, i, last, c);
    case ClearDone => UnlockClearOk(s, i, last, c);
    case Drop(d, keep) => DropOk(s, i, last, d, keep, c);
    case Free(d, keep) => FreeOk(s, i, last, d, keep, c);
  }

  /** What a step does to the pointers around. */
  lemma TurnAgents(s: Shared, i: nat, a: Start)
    requires Proper(s) && Ready(s, i, a)
    ensures var t := Turn(s, i, a);
            && |s.copies| <= |t.copies| && Pointer(t.copy, |t.copies|) && t.agents == s.agents[i := t.agents[i]]
  {
    assert Known(s.agents[i], |s.copies|) && Pointer(s.copy, |s.copies|);
    hide Proper;
  }

  lemma TurnKnown(s: Shared, i: nat, a: Start)
    requires Proper(s) && Ready(s, i, a)
    ensures i < |Turn(s, i, a).agents| && Known(Turn(s, i, a).agents[i], |Turn(s, i, a).copies|)
  {
    assert Known(s.agents[i], |s.copies|) && Pointer(s.copy, |s.copies|);
    hide Proper;
  }

  lemma TurnProper(s: Shared, i: nat, a: Start)
    requires Proper(s) && Ready(s, i, a)
    ensures Proper(Turn(s, i, a)) && |s.copies| <= |Turn(s, i, a).copies|
  {
    hide Turn;
    TurnAgents(s, i, a);
    TurnKnown(s, i, a);
    var t := Turn(s, i, a);
    forall j | 0 <= j < |t.agents| ensures Known(t.agents[j], |t.copies|) {
      if j != i { assert Known(s.agents[j], |s.copies|); }
    }
  }

  lemma TurnConsistent(s: Shared, i: nat, a: Start)
    requires Consistent(s) && Ready(s, i, a)
    ensures Consistent(Turn(s, i, a))
  {
    TurnProper(s, i, a);
    var t := Turn(s, i, a);
    hide Turn, Proper, LockOk, CopyOk;
    forall c | 0 <= c < |t.copies| ensures CopyOk(t, c) { TurnOk(s, i, a, c); }
    TurnOk(s, i, a, 0);
  }

  /** A new object with its first copy, and `n` agents. */
  function Fresh(n: nat): Shared { Shared(Holders(0, 0), 0, [Copy(1, false)], seq(n, _ => Agent(NULL, Idle))) }

  /** A turn of some agent, or nothing that matters here. */
  ghost predicate Follows(s: Shared, t: Shared) {
    t == s || exists i: nat, a :: Ready(s, i, a) && Proper(s) && t == Turn(s, i, a)
  }

  ghost predicate Execution(run: seq<Shared>) {
    && run != [] && (exists n: nat :: run[0] == Fresh(n))
    && forall j :: 0 < j < |run| ==> Follows(run[j - 1], run[j])
  }

  lemma {:induction false} FreshSum(n: nat, k: Share, c: nat)
    ensures Sum(seq(n, _ => Agent(NULL, Idle)), k, c) == 0
  {
    if n > 0 {
      FreshSum(n - 1, k, c);
      assert seq(n, _ => Agent(NULL, Idle))[..n - 1] == seq(n - 1, _ => Agent(NULL, Idle));
    }
  }

  lemma {:induction false} ExecutionConsistent(run: seq<Shared>, j: nat)
    requires Execution(run) && j < |run|
    ensures Consistent(run[j])
  {
    if j == 0 {
      var n: nat :| run[0] == Fresh(n);
      forall k ensures Sum(Fresh(n).agents, k, 0) == 0 { FreshSum(n, k, 0); }
    } else {
      ExecutionConsistent(run, j - 1);
      assert Follows(run[j - 1], run[j]);
      if run[j] != run[j - 1] {
        var i: nat, a :| Ready(run[j - 1], i, a) && Proper(run[j - 1]) && run[j] == Turn(run[j - 1], i, a);
        TurnConsistent(run[j - 1], i, a);
      }
    }
  }

  /** Agent `x` holds a reference to copy `c`: it has read it last, or is at work with it. */
  predicate Refers(x: Agent, c: int) { Part(x, Ref, c) > 0 }

  /** A copy that an agent refers to, or that the object points at and has not given up, has not been
      freed; one to which nobody refers is freed or about to be, by one agent. */
  ghost predicate Alive(s: Shared, c: nat)
    requires c < |s.copies|
  {
    && (forall i :: 0 <= i < |s.agents| && Refers(s.agents[i], c) ==> !s.copies[c].freed && s.copies[c].ref > 0)
    && (Own(s, c) > 0 ==> !s.copies[c].freed)
    && (Sum(s.agents, Ref, c) + Own(s, c) == 0 ==> s.copies[c].freed || Sum(s.agents, Freer, c) == 1)
  }

  lemma ConsistentAlive(s: Shared, c: nat)
    requires Consistent(s) && c < |s.copies|
    ensures Alive(s, c)
  {
    assert CopyOk(s, c);
    forall i | 0 <= i < |s.agents| && Refers(s.agents[i], c) ensures s.copies[c].ref > 0 {
      SumUpdate(s.agents, i, s.agents[i], Ref, c);
    }
  }

  /** So it is in every run. */
  lemma CopiesLive(run: seq<Shared>, j: nat, c: nat)
    requires Execution(run) && j < |run| && c < |run[j].copies|
    ensures Alive(run[j], c)
  {
    ExecutionConsistent(run, j);
    ConsistentAlive(run[j], c);
  }

  /** At every step: what is freed had not been freed and has no reference, and a reference is taken only
      to the current copy, which has one. */
  lemma TurnSafe(s: Shared, i: nat, c: nat)
    requires Consistent(s) && i < |s.agents| && c < |s.copies|
    ensures s.agents[i].at == ClearFree(c) || (s.agents[i].at.Free? && s.agents[i].at.c == c) ==>
              !s.copies[c].freed && s.copies[c].ref == 0
    ensures s.agents[i].at == ReadGot(c) ==> s.copies[c].ref > 0 && s.copy == c
  {
    assert CopyOk(s, c);
    Became(s, i, s.agents[i], c);
    LoadedInside(s.agents, c);
    hide Sum, Known, Proper, Consistent;
  }

  /** What has been freed stays as it is. */
  lemma FreedStays(s: Shared, i: nat, a: Start, c: nat)
    requires Consistent(s) && Ready(s, i, a) && c < |s.copies| && s.copies[c].freed
    ensures c < |Turn(s, i, a).copies| && Turn(s, i, a).copies[c] == s.copies[c]
  {
    var x := s.agents[i];
    assert Known(x, |s.copies|) && CopyOk(s, c);
    Became(s, i, x, c);
    LoadedInside(s.agents, c);
    assert Part(x, Ref, c) == 0 && Part(x, Freer, c) == 0;
    hide Sum, Known, Proper, Consistent, LockOk;
  }
}
