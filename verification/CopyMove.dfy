/** Copying and moving messages between databases in batches (requiemdb-admin.c). Commits in the
    destination succeed; reading, inserting and deleting may fail, and the user may interrupt. */
module CopyMove {

  type Msg = nat

  /** The size of delete_tbl. */
  const TABLESIZE := 1024

  function Without(s: seq<Msg>, gone: seq<Msg>): (r: seq<Msg>)
    ensures forall m :: m in r <==> m in s && m !in gone
    ensures |r| <= |s|
  {
    if s == [] then []
    else if s[0] in gone then Without(s[1..], gone)
    else
      assert forall m :: m in s <==> m == s[0] || m in s[1..];
      [s[0]] + Without(s[1..], gone)
  }

  lemma {:induction false} WithoutShrinks(s: seq<Msg>, gone: seq<Msg>, m: Msg)
    requires m in s && m in gone
    ensures |Without(s, gone)| < |s|
  {
    if s[0] !in gone { WithoutShrinks(s[1..], gone, m); }
  }

  lemma {:induction false} WithoutTwice(s: seq<Msg>, a: seq<Msg>, b: seq<Msg>)
    ensures Without(Without(s, a), b) == Without(s, a + b)
  {
    if s != [] {
      WithoutTwice(s[1..], a, b);
      if s[0] !in a { assert ([s[0]] + Without(s[1..], a))[1..] == Without(s[1..], a); }
    }
  }

  lemma {:induction false} WithoutNothing(s: seq<Msg>)
    ensures Without(s, []) == s
  {
    if s != [] { WithoutNothing(s[1..]); }
  }

  ghost predicate Distinct(s: seq<Msg>) {
    forall i, j :: 0 <= i < j < |s| ==> s[i] != s[j]
  }

  lemma {:induction false} WithoutOthers(s: seq<Msg>, gone: seq<Msg>)
    requires forall m :: m in s ==> m !in gone
    ensures Without(s, gone) == s
  {
    if s != [] { WithoutOthers(s[1..], gone); }
  }

  lemma {:induction false} WithoutFront(s: seq<Msg>, t: seq<Msg>, gone: seq<Msg>)
    ensures Without(s + t, gone) == Without(s, gone) + Without(t, gone)
  {
    if s == [] {
      assert s + t == t;
    } else {
      assert (s + t)[1..] == s[1..] + t;
      WithoutFront(s[1..], t, gone);
    }
  }

  lemma {:induction false} WithoutAll(s: seq<Msg>, gone: seq<Msg>)
    requires forall m :: m in s ==> m in gone
    ensures Without(s, gone) == []
  {
    if s != [] { WithoutAll(s[1..], gone); }
  }

  lemma StretchesApart(s: seq<Msg>, i: nat, j: nat, p: nat, m: Msg)
    requires Distinct(s) && i <= j <= |s| && p < |s| && !(i <= p < j) && m == s[p]
    ensures m !in s[i..j]
  {}

  /** Of distinct messages, those of a stretch are deleted and no others. */
  lemma WithoutStretch(s: seq<Msg>, i: nat, j: nat)
    requires Distinct(s) && i <= j <= |s|
    ensures Without(s, s[i..j]) == s[..i] + s[j..]
  {
    hide Without, Distinct;
    var a, b, c := s[..i], s[i..j], s[j..];
    forall m | m in a
      ensures m !in b
    {
      var p :| 0 <= p < i && s[p] == m;
      StretchesApart(s, i, j, p, m);
    }
    forall m | m in c
      ensures m !in b
    {
      var p :| 0 <= p < |c| && c[p] == m;
      StretchesApart(s, i, j, j + p, m);
    }
    ThreeStretches(s, i, j);
    WithoutMiddle(a, b, c);
  }

  lemma ThreeStretches(s: seq<Msg>, i: nat, j: nat)
    requires i <= j <= |s|
    ensures s == s[..i] + (s[i..j] + s[j..])
  {}

  lemma WithoutMiddle(a: seq<Msg>, b: seq<Msg>, c: seq<Msg>)
    requires (forall m :: m in a ==> m !in b) && (forall m :: m in c ==> m !in b)
    ensures Without(a + (b + c), b) == a + c
  {
    hide Without;
    WithoutFront(a, b + c, b);
    WithoutFront(b, c, b);
    WithoutOthers(a, b);
    WithoutAll(b, b);
    WithoutOthers(c, b);
    assert [] + c == c;
  }

  /** The destination has got the n messages of the source from the offset on, in order. */
  ghost predicate Copied(now: seq<Msg>, dst: seq<Msg>, src: seq<Msg>, offset: nat, n: nat) {
    if n == 0 then now == dst else offset + n <= |src| && now == dst + src[offset..offset + n]
  }

  /** The source has lost the m messages from the offset on, and no others. */
  ghost predicate Taken(now: seq<Msg>, src: seq<Msg>, offset: nat, m: nat) {
    if m == 0 then now == src else offset + m <= |src| && now == src[..offset] + src[offset + m..]
  }

  /** Copied and Taken without the case of nothing. */
  lemma CopiedSlice(now: seq<Msg>, dst: seq<Msg>, src: seq<Msg>, offset: nat, n: nat)
    requires offset + n <= |src|
    ensures Copied(now, dst, src, offset, n) <==> now == dst + src[offset..offset + n]
  {
    if n == 0 { assert dst + src[offset..offset] == dst; }
  }

  lemma TakenSlice(now: seq<Msg>, src: seq<Msg>, offset: nat, m: nat)
    requires offset + m <= |src|
    ensures Taken(now, src, offset, m) <==> now == src[..offset] + src[offset + m..]
  {
    if m == 0 { assert src[..offset] + src[offset..] == src; }
  }

  lemma TakenBound(now: seq<Msg>, src: seq<Msg>, offset: nat, m: nat)
    requires Taken(now, src, offset, m) && offset < |now|
    ensures offset + m <= |src|
  {}

  /** Another batch is copied, and is or is not yet deleted. */
  lemma MovedMore(src: seq<Msg>, dst: seq<Msg>, offset: nat, n: nat, left: seq<Msg>, now: seq<Msg>, k: nat, added: seq<Msg>)
    requires Distinct(src) && Copied(now, dst, src, offset, n) && Taken(left, src, offset, n)
    requires added == [] || added == Window(left, offset, k)
    ensures Copied(now + added, dst, src, offset, n + |added|)
    ensures Taken(Without(left, added), src, offset, n + |added|)
  {
    hide Without, Distinct, Copied, Taken, Window;
    if added == [] {
      WithoutNothing(left);
      assert now + [] == now;
    } else {
      var a := |added|;
      WindowAt(left, offset, k);
      TakenBound(left, src, offset, n);
      CopiedSlice(now, dst, src, offset, n);
      TakenSlice(left, src, offset, n);
      LeftDistinct(src, offset, n, left);
      WithoutStretch(left, offset, offset + a);
      StretchesJoin(src, dst, offset, n, a, left);
      CopiedSlice(now + added, dst, src, offset, n + a);
      TakenSlice(Without(left, added), src, offset, n + a);
    }
  }

  lemma CopiedMore(src: seq<Msg>, dst: seq<Msg>, offset: nat, n: nat, now: seq<Msg>, k: nat, added: seq<Msg>)
    requires Copied(now, dst, src, offset, n) && (added == [] || added == Window(src, offset + n, k))
    ensures Copied(now + added, dst, src, offset, n + |added|)
  {
    hide Window;
    WindowAt(src, offset + n, k);
    if added == [] {
      assert now + [] == now;
    } else {
      NothingTaken(src, offset, dst);
      assert dst + src[offset..offset + n] + added == dst + (src[offset..offset + n] + added);
      assert src[offset..offset + n] + added == src[offset..offset + (n + |added|)];
    }
  }

  lemma WindowAt(s: seq<Msg>, offset: nat, k: nat)
    ensures var w := Window(s, offset, k);
      w == [] || (offset + |w| <= |s| && w == s[offset..offset + |w|])
  {}

  lemma NothingTaken(src: seq<Msg>, offset: nat, dst: seq<Msg>)
    ensures offset <= |src| ==>
      src == src[..offset] + src[offset..] && src[offset..offset] == [] && dst + src[offset..offset] == dst
  {}

  lemma StretchesJoin(src: seq<Msg>, dst: seq<Msg>, offset: nat, n: nat, a: nat, left: seq<Msg>)
    requires offset + n <= |src| && left == src[..offset] + src[offset + n..] && offset + a <= |left|
    ensures offset + n + a <= |src| && left[offset..offset + a] == src[offset + n..offset + n + a]
    ensures dst + src[offset..offset + n] + left[offset..offset + a] == dst + src[offset..offset + (n + a)]
    ensures left[..offset] + left[offset + a..] == src[..offset] + src[offset + (n + a)..]
  {
    assert left[..offset] == src[..offset] && left[offset + a..] == src[offset + (n + a)..];
    assert src[offset..offset + n] + src[offset + n..offset + n + a] == src[offset..offset + (n + a)];
  }

  lemma LeftDistinct(src: seq<Msg>, offset: nat, n: nat, left: seq<Msg>)
    requires Distinct(src) && offset + n <= |src| && left == src[..offset] + src[offset + n..]
    ensures Distinct(left)
  {
    forall i, j | 0 <= i < j < |left|
      ensures left[i] != left[j]
    {
      assert left[i] == src[if i < offset then i else i + n] && left[j] == src[if j < offset then j else j + n];
    }
  }

  ghost predicate AllIn(all: seq<Msg>, src: seq<Msg>, committed: seq<Msg>) {
    forall m :: m in all ==> m in src || m in committed
  }

  lemma AllInMore(all: seq<Msg>, src: seq<Msg>, committed: seq<Msg>, more: seq<Msg>)
    requires AllIn(all, src, committed)
    ensures AllIn(all, src, committed + more)
  {}

  /** What has been committed may be deleted. */
  lemma AllInWithout(all: seq<Msg>, src: seq<Msg>, committed: seq<Msg>, gone: seq<Msg>, rest: seq<Msg>, idents: seq<Msg>)
    requires AllIn(all, src, committed) && idents == gone + rest
    ensures AllIn(all, Without(src, gone), committed + idents) && AllIn(all, Without(src, idents), committed + idents)
    ensures |Without(src, gone)| <= |src| && |Without(src, idents)| <= |src|
  {}

  /** Some message is about to be deleted that has not been committed. */
  ghost predicate Ahead(all: seq<Msg>, committed: seq<Msg>, gone: seq<Msg>) {
    exists m :: m in all && m in gone && m !in committed
  }

  lemma FirstAhead(all: seq<Msg>, committed: seq<Msg>, gone: seq<Msg>)
    requires gone != [] && gone[0] in all && gone[0] !in committed
    ensures Ahead(all, committed, gone)
  {}

  /** Nothing fails, and the user does not interrupt. */
  ghost predicate Undisturbed(fails: nat -> bool) { forall n :: !fails(n) }

  /** The globals of the program, its two databases, and the transaction of the destination if
      one is open. */
  class Engine {
    const perTransaction: nat
    const offset: nat
    const limit: int
    /** Whether the n-th attempt to do something fails, or the n-th look at the signal flag finds
        it set. */
    const fails: nat -> bool
    var attempts: nat
    var limitCopy: int
    var curCount: nat
    var eventNo: nat
    var src: seq<Msg>
    var committed: seq<Msg>
    var open: bool
    var pending: seq<Msg>
    /** Whether every message that the source had at first has been safe after each step. */
    ghost const all: seq<Msg>
    /** The numbers of the attempts that were looks at the signal flag. */
    ghost var looks: seq<nat>
    /** What the destination had at first, and how many messages the source has lost. */
    ghost const had: seq<Msg>
    ghost var lost: nat
    ghost var alwaysSafe: bool

    constructor (perTransaction: nat, offset: nat, limit: int, fails: nat -> bool, src: seq<Msg>, dst: seq<Msg>)
      ensures this.perTransaction == perTransaction && this.offset == offset && this.limit == limit
      ensures this.fails == fails && !open
      ensures this.src == src && committed == dst && pending == [] && eventNo == 0 && curCount == 0
      ensures limitCopy == limit && all == src && alwaysSafe && looks == []
      ensures had == dst && lost == 0
    {
      this.perTransaction, this.offset, this.limit, limitCopy := perTransaction, offset, limit, limit;
      this.fails, attempts, open := fails, 0, false;
      curCount, eventNo := 0, 0;
      this.src, committed, pending := src, dst, [];
      all, alwaysSafe, looks, had, lost := src, true, [], dst, 0;
    }

    /** Every message is still in the source, or safe in the destination. */
    ghost predicate Safe()
      reads `src, `committed
    {
      AllIn(all, src, committed)
    }

    lemma SafeAtFirst()
      requires src == all
      ensures Safe()
    {}

    /** The messages from the offset on that have been copied, and deleted if it is a move. A move
        is followed only if the messages are distinct. */
    ghost predicate Followed(move: bool)
      reads `committed, `src, `curCount, `lost
    {
      if move then Distinct(all) ==> Copied(committed, had, all, offset, curCount) && Taken(src, all, offset, lost)
      else src == all && Copied(committed, had, all, offset, curCount)
    }

    method Attempt() returns (ok: bool)
      modifies `attempts
      ensures ok == !fails(old(attempts)) && attempts == old(attempts) + 1
      ensures Undisturbed(fails) ==> ok
    {
      ok := !fails(attempts);
      attempts := attempts + 1;
    }

    /** From a number of looks at the signal flag on, only the last one may have found it set. */
    ghost predicate Looked(from: nat, stopped: bool)
      reads `looks
    {
      && |looks| > from && stopped == fails(looks[|looks| - 1])
      && forall i :: from <= i < |looks| - 1 ==> !fails(looks[i])
    }

    /** Whether the user has interrupted the program by now. */
    method Interrupted(ghost from: nat) returns (stopped: bool)
      requires |looks| == from || Looked(from, false)
      modifies `attempts, `looks
      ensures looks == old(looks) + [old(attempts)] && Looked(from, stopped)
      ensures Undisturbed(fails) ==> !stopped
    {
      looks := looks + [attempts];
      var quiet := Attempt();
      stopped := !quiet;
    }

    /** Insertion into the destination, which is permanent at once without a transaction. */
    method Insert(m: Msg) returns (ok: bool)
      modifies `committed, `pending, `attempts, `alwaysSafe
      ensures Undisturbed(fails) ==> ok
      ensures if !ok then committed == old(committed) && pending == old(pending)
              else if open then committed == old(committed) && pending == old(pending) + [m]
              else committed == old(committed) + [m] && pending == old(pending)
      ensures alwaysSafe == (old(alwaysSafe) && Safe())
    {
      ok := Attempt();
      if ok && open {
        pending := pending + [m];
      } else if ok {
        committed := committed + [m];
      }
      alwaysSafe := alwaysSafe && Safe();
    }

    /** The end of a transaction, which is an error if none is open. */
    method Commit()
      modifies `committed, `pending, `open
      ensures !open
      ensures if old(open) then committed == old(committed + pending) && pending == []
              else committed == old(committed) && pending == old(pending)
    {
      if open {
        committed, pending := committed + pending, [];
      }
      open := false;
    }

    /** Count events, and commit when the transaction is full, or when there are none to add. */
    method FlushIfNeeded(increment: nat)
      requires !open ==> pending == []
      modifies `eventNo, `curCount, `committed, `pending, `open, `alwaysSafe
      ensures alwaysSafe == (old(alwaysSafe) && Safe())
      ensures var n := old(eventNo) + increment;
        if perTransaction > 0 && (n >= perTransaction || (increment == 0 && n > 0))
        then eventNo == 0 && curCount == old(curCount) + n && open && pending == [] && committed == old(committed + pending)
        else
          && eventNo == (if perTransaction > 0 then n else old(eventNo)) && curCount == old(curCount)
          && open == old(open) && pending == old(pending) && committed == old(committed)
    {
      if perTransaction > 0 {
        eventNo := eventNo + increment;
        if eventNo >= perTransaction || (increment == 0 && eventNo > 0) {
          assert committed + [] == committed;
          Commit();
          open := true;
          curCount := curCount + eventNo;
          eventNo := 0;
        }
      }
      alwaysSafe := alwaysSafe && Safe();
    }

    /** Deletion from the source; it is done as a whole or not at all. */
    method DeleteFromSource(idents: seq<Msg>) returns (ok: bool)
      modifies `src, `attempts, `alwaysSafe
      ensures Undisturbed(fails) ==> ok
      ensures src == if ok then Without(old(src), idents) else old(src)
      ensures alwaysSafe == (old(alwaysSafe) && Safe())
    {
      ok := Attempt();
      if ok {
        src := Without(src, idents);
      }
      alwaysSafe := alwaysSafe && Safe();
    }

    /** The idents of the next batch; nothing when that fails. */
    method FetchIdents(noIncrement: bool) returns (ok: bool, idents: seq<Msg>)
      modifies `limitCopy, `attempts
      ensures Undisturbed(fails) ==> ok
      ensures ok ==>
        idents == Window(src, offset + (if noIncrement then 0 else curCount), Capped(old(limitCopy), perTransaction))
      ensures ok ==> limitCopy == if old(limitCopy) > 0 then old(limitCopy) - |idents| else old(limitCopy)
      ensures !ok ==> idents == [] && limitCopy == old(limitCopy)
    {
      ok := Attempt();
      if !ok {
        return false, [];
      }
      var localLimit :=
        if limitCopy < 0 || perTransaction < limitCopy then perTransaction else limitCopy;
      idents := Window(src, offset + (if noIncrement then 0 else curCount), localLimit);
      if limitCopy > 0 {
        limitCopy := limitCopy - |idents|;
      }
    }

    /** Copy one message; its ident goes into the table of those to delete, and when the table
        is full they are deleted. If that fails the event is not counted. */
    method CopyMessage(m: Msg, move: bool, table: seq<Msg>) returns (ok: bool, uncounted: bool, next: seq<Msg>)
      requires eventNo < perTransaction && (perTransaction > 1 ==> open) && (!open ==> pending == [])
      modifies `eventNo, `curCount, `committed, `open, `pending, `src, `attempts, `alwaysSafe
      ensures Undisturbed(fails) ==> ok && !uncounted
      ensures eventNo < perTransaction && (perTransaction > 1 ==> open) && (!open ==> pending == [])
      ensures uncounted ==> ok && move && |table| + 1 >= TABLESIZE
      ensures alwaysSafe ==> old(alwaysSafe)
      ensures var full := ok && move && |table| + 1 >= TABLESIZE && !uncounted;
        && src == (if full then Without(old(src), table + [m]) else old(src))
        && next == (if full then [] else if ok && move then table + [m] else table)
        && (full && old(open) && Ahead(all, old(committed), table + [m]) ==> !alwaysSafe)
        && (!full && old(Safe()) ==> Safe() && alwaysSafe == old(alwaysSafe))
      ensures if ok then committed + pending == old(committed + pending) + [m]
              else committed == old(committed) && pending == old(pending)
      ensures if ok && !uncounted && old(eventNo) + 1 == perTransaction
              then eventNo == 0 && pending == [] && curCount == old(curCount + eventNo) + 1
              else
                && eventNo == old(eventNo) + (if ok && !uncounted then 1 else 0) && curCount == old(curCount)
                && (old(open) ==> committed == old(committed))
    {
      next, uncounted := table, false;
      ok := Attempt();
      if !ok {
        return;
      }
      ok := Insert(m);
      if !ok {
        return;
      }
      if move {
        next := table + [m];
        if eventNo >= perTransaction || |next| >= TABLESIZE {
          var deleted := DeleteFromSource(next);
          if !deleted {
            uncounted := true;
            return;
          }
          next := [];
        }
      }
      FlushIfNeeded(1);
    }

    /** The end of a batch: commit what is left, and then delete what the table has. */
    method FinishBatch(table: seq<Msg>) returns (ok: bool)
      requires 0 < perTransaction && (!open ==> pending == []) && (pending != [] ==> eventNo > 0)
      requires AllIn(all, src, committed + pending) && AllIn(all, Without(src, table), committed + pending)
      modifies `eventNo, `curCount, `committed, `open, `pending, `src, `attempts, `alwaysSafe
      ensures Undisturbed(fails) ==> ok
      ensures committed == old(committed + pending) && pending == [] && eventNo == 0 && (old(open) ==> open)
      ensures curCount == old(curCount + eventNo) && src == if ok then Without(old(src), table) else old(src)
      ensures Safe() && alwaysSafe == old(alwaysSafe)
    {
      hide Without, AllIn;
      assert committed + [] == committed;
      FlushIfNeeded(0);
      ok := true;
      if table == [] {
        WithoutNothing(src);
      } else {
        ok := DeleteFromSource(table);
      }
    }

    /** Copy the messages of a batch, and for a move delete them from the source. A copy, and a
        batch smaller than the table, keeps every message safe at each step. A move of a batch
        that fills the table does not, if the first message is not in the destination yet. */
    method CopyIterate(idents: seq<Msg>, move: bool) returns (ok: bool)
      requires 0 < |idents| <= perTransaction && (move ==> |idents| <= TABLESIZE || Undisturbed(fails))
      requires eventNo == 0 && pending == [] && (perTransaction > 1 ==> open) && Safe()
      modifies `eventNo, `curCount, `committed, `open, `pending, `src, `attempts, `alwaysSafe
      ensures Undisturbed(fails) ==> ok
      ensures !move ==> src == old(src)
      ensures move && ok ==> src == Without(old(src), idents)
      ensures committed == old(committed) + idents || (!ok && committed == old(committed))
      ensures |src| <= |old(src)| && (perTransaction > 1 ==> open) && Safe()
      ensures (ok ==> pending == [] && eventNo == 0) && (alwaysSafe ==> old(alwaysSafe))
      ensures !move || |idents| < TABLESIZE || Undisturbed(fails) ==>
        eventNo == |pending| < perTransaction && curCount == old(curCount) + |committed| - |old(committed)|
      ensures !move || |idents| < TABLESIZE ==> alwaysSafe == old(alwaysSafe) && (!ok ==> src == old(src))
      ensures move && |idents| >= TABLESIZE && Undisturbed(fails) && idents[0] in all && idents[0] !in old(committed) ==>
        !alwaysSafe
    {
      hide Without, AllIn, Ahead, Undisturbed;
      var table: seq<Msg> := [];
      ghost var gone: seq<Msg>, was, had := [], src, committed;
      ghost var small := !move || |idents| < TABLESIZE;
      ghost var steady := small || Undisturbed(fails);
      WithoutNothing(src);
      assert committed + [] == committed;
      for i := 0 to |idents|
        invariant committed + pending == had + idents[..i]
        invariant eventNo < perTransaction && (perTransaction > 1 ==> open) && (!open ==> pending == [])
        invariant pending != [] ==> eventNo > 0
        invariant steady || i < TABLESIZE ==>
          && eventNo == |pending| && curCount == old(curCount) + |committed| - |had|
          && (if i < perTransaction then committed == had else pending == [])
        invariant if move then idents[..i] == gone + table else table == gone == []
        invariant src == Without(was, gone) && (i < TABLESIZE ==> gone == [])
        invariant small || i < TABLESIZE ==> gone == [] && Safe() && alwaysSafe == old(alwaysSafe)
        invariant alwaysSafe ==> old(alwaysSafe)
        invariant !small && steady && i >= TABLESIZE && idents[0] in all && idents[0] !in had ==> !alwaysSafe
      {
        ghost var noted := table + [idents[i]];
        assert i < TABLESIZE && move ==> noted[0] == idents[..i + 1][0];
        var copied, uncounted;
        copied, uncounted, table := CopyMessage(idents[i], move, table);
        if !copied {
          return false;
        }
        assert idents[..i + 1] == idents[..i] + [idents[i]];
        assert had + idents[..i + 1] == had + idents[..i] + [idents[i]];
        assert move ==> gone + noted == idents[..i + 1];
        if move && |noted| >= TABLESIZE && !uncounted {
          WithoutTwice(was, gone, noted);
          if i + 1 == TABLESIZE && idents[0] in all && idents[0] !in had { FirstAhead(all, had, noted); }
          gone := gone + noted;
        }
      }
      assert idents[..|idents|] == idents;
      if move { AllInWithout(all, was, had, gone, table, idents); } else { AllInMore(all, was, had, idents); }
      WithoutTwice(was, gone, table);
      ok := FinishBatch(table);
      assert move ==> gone + table == idents;
    }

    /** How many messages the next batch of a move has; no later one has more. */
    ghost function FirstBatch(): nat
      reads `limitCopy, `src
    {
      BatchOf(perTransaction, offset, limitCopy, src)
    }

    /** A move by batches that do not fill the table, or a copy. */
    ghost predicate Small(move: bool)
      reads `limitCopy, `src
    {
      !move || FirstBatch() < TABLESIZE
    }

    method TransactionStart()
      modifies `open
      ensures open == (perTransaction > 1 || old(open))
    {
      if perTransaction > 1 {
        open := true;
      }
    }

    /** The transaction is aborted after an error, and ended otherwise. Closing the connection
        then drops one that is still open. */
    method TransactionEnd(ok: bool)
      requires (ok || perTransaction <= 1 ==> pending == []) && (ok ==> eventNo == 0)
      modifies `open, `pending, `committed, `curCount
      ensures pending == [] && !open && committed == old(committed) && curCount == old(curCount)
      ensures forall move :: old(Followed(move)) ==> Followed(move)
    {
      hide Copied, Taken, Distinct;
      assert committed + [] == committed;
      if perTransaction > 1 {
        if !ok {
          pending, open := [], false;
        } else {
          curCount := curCount + eventNo;
          Commit();
        }
      }
      pending, open := [], false;
    }

    /** Fetch a batch and copy it; added is what the destination gets. */
    method NextBatch(move: bool) returns (ok: bool, more: bool, ghost added: seq<Msg>)
      requires eventNo == 0 && pending == [] && (perTransaction > 1 ==> open) && Safe()
      requires move ==> FirstBatch() <= TABLESIZE || Undisturbed(fails)
      modifies this
      ensures Undisturbed(fails) ==> ok
      ensures (ok ==> pending == [] && eventNo == 0) && (perTransaction > 1 ==> open) && Safe()
      ensures (alwaysSafe ==> old(alwaysSafe)) && FirstBatch() <= old(FirstBatch())
      ensures committed == old(committed) + added
      ensures if move then |src| <= |old(src)| && (ok && more ==> |src| < |old(src)|) else src == old(src)
      ensures if old(limitCopy) >= 0 then 0 <= limitCopy <= old(limitCopy) else limitCopy < 0
      ensures ok && !more ==>
        old(limitCopy) == 0 || perTransaction == 0 || (if move then offset else offset + old(curCount)) >= |src|
      ensures !more ==> added == [] && pending == [] && eventNo == 0
      ensures old(Small(move)) || Undisturbed(fails) ==>
        && eventNo == |pending| && (perTransaction <= 1 ==> eventNo == 0) && curCount == old(curCount) + |added|
        && (old(limitCopy) >= 0 ==> |added| <= old(limitCopy) && (ok ==> limitCopy == old(limitCopy) - |added|))
      ensures looks == old(looks) && lost == old(lost)
      ensures !move ==> (ok && more ==> added != []) && |old(committed)| + |added| <= |committed|
      ensures perTransaction == 0 ==> added == []
      ensures var start := offset + (if move then 0 else old(curCount));
        added == [] || added == Window(old(src), start, Capped(old(limitCopy), perTransaction))
      ensures move && ok ==> src == Without(old(src), added)
      ensures old(Small(move)) && !ok ==> src == old(src)
      ensures old(Small(move)) ==> alwaysSafe == old(alwaysSafe)
      ensures old(!Small(move)) && Undisturbed(fails) && old(src[offset] in all && src[offset] !in committed) ==> !alwaysSafe
    {
      hide Without, AllIn, Undisturbed, Window, BatchOf;
      WithoutNothing(src);
      ghost var before, had, remaining := src, committed, limitCopy;
      BatchBegins(perTransaction, offset, limitCopy, src);
      var idents;
      ok, idents := FetchIdents(move);
      more := idents != [];
      assert had + [] == had;
      added := [];
      if more {
        ok := CopyIterate(idents, move);
        if move && ok { WithoutShrinks(before, idents, idents[0]); }
        added := committed[|had|..];
      }
      SmallerBatch(perTransaction, offset, remaining, limitCopy, before, src);
    }

    /** The counts between batches: what has been committed is what has been counted. ok says that
        nothing has failed so far. */
    ghost predicate Counted(move: bool, ok: bool)
      reads `eventNo, `pending, `committed, `src, `curCount, `limitCopy, `lost
    {
      && eventNo == |pending| && (perTransaction <= 1 ==> eventNo == 0)
      && |committed| == |had| + curCount && (perTransaction == 0 ==> curCount == 0)
      && (if limit < 0 then limitCopy < 0 else curCount <= limit && (ok ==> limitCopy == limit - curCount))
      && Followed(move) && lost <= curCount && (if move then ok ==> lost == curCount else lost == 0)
    }

    /** A batch, in terms of what has been copied in all. */
    method Advance(move: bool, ghost steady: bool) returns (ok: bool, more: bool)
      requires eventNo == 0 && pending == [] && (perTransaction > 1 ==> open) && Safe()
      requires move ==> FirstBatch() <= TABLESIZE || Undisturbed(fails)
      requires steady ==> (Small(move) || Undisturbed(fails)) && Counted(move, true)
      modifies this
      ensures Undisturbed(fails) ==> ok
      ensures (ok ==> pending == [] && eventNo == 0) && (perTransaction > 1 ==> open) && Safe()
      ensures (alwaysSafe ==> old(alwaysSafe)) && FirstBatch() <= old(FirstBatch()) && looks == old(looks)
      ensures if move then |src| <= |old(src)| && (ok && more ==> |src| < |old(src)|) else src == old(src)
      ensures !move && ok && more ==> |committed| > |old(committed)|
      ensures perTransaction <= 1 ==> pending == []
      ensures steady ==> Counted(move, ok)
      ensures steady && ok && !more ==>
        curCount == limit || perTransaction == 0 || (if move then offset else offset + curCount) >= |src|
      ensures old(Small(move)) ==> alwaysSafe == old(alwaysSafe)
      ensures old(!Small(move)) && Undisturbed(fails) && old(src[offset] in all && src[offset] !in committed) ==> !alwaysSafe
    {
      hide Without, AllIn, Undisturbed, Window, BatchOf, Copied, Taken, Distinct;
      ghost var before, now, k, count := src, committed, Capped(limitCopy, perTransaction), curCount;
      BatchBegins(perTransaction, offset, limitCopy, src);
      ghost var added;
      ok, more, added := NextBatch(move);
      if steady {
        if !move {
          CopiedMore(all, had, offset, count, now, k, added);
        } else if Distinct(all) {
          MovedMore(all, had, offset, lost, before, now, k, added);
        }
        lost := if move && ok then lost + |added| else lost;
      }
    }

    lemma CountedAtFirst(move: bool)
      requires eventNo == 0 && curCount == 0 && pending == [] && limitCopy == limit
      requires src == all && committed == had && lost == 0
      ensures Counted(move, true)
    {}

    lemma CopyBounded()
      requires Counted(false, true) || Counted(false, false)
      ensures src == all && |committed| <= |had| + |src|
    {}

    /** The whole command. stopped says that the user has interrupted it, which is looked at after
        each batch. A copy adds to the destination, in order and without gaps, the curCount messages
        from the offset on, and so does a move of distinct messages. */
    method Transfer(move: bool) returns (ok: bool, stopped: bool)
      requires !open && eventNo == 0 && curCount == 0 && pending == [] && limitCopy == limit && Safe()
      requires src == all && committed == had && lost == 0
      requires move ==> FirstBatch() <= TABLESIZE || Undisturbed(fails)
      modifies this
      ensures pending == [] && !open && Safe() && (Undisturbed(fails) ==> ok && !stopped)
      ensures old(Small(move)) || Undisturbed(fails) ==>
        && |committed| == |had| + curCount && (limit >= 0 ==> curCount <= limit)
        && (ok && !stopped && perTransaction > 0 ==>
              curCount == limit || (if move then offset else offset + curCount) >= |src|)
        && (perTransaction == 0 ==> curCount == 0)
        && Followed(move) && lost <= curCount && (move && ok ==> lost == curCount)
      ensures old(Small(move)) ==> alwaysSafe == old(alwaysSafe)
      ensures old(!Small(move)) && Undisturbed(fails) && old(src[offset] !in committed) ==> !alwaysSafe
      ensures Looked(|old(looks)|, stopped)
    {
      hide Without, AllIn, Undisturbed, BatchOf, Looked, Followed;
      TransactionStart();
      CountedAtFirst(move);
      ok, stopped := Batches(move);
      TransactionEnd(ok);
    }

    /** The loop over the batches. */
    method Batches(move: bool) returns (ok: bool, stopped: bool)
      requires eventNo == 0 && pending == [] && (perTransaction > 1 ==> open) && Safe()
      requires src == all && committed == had && Counted(move, true)
      requires move ==> FirstBatch() <= TABLESIZE || Undisturbed(fails)
      modifies this
      ensures (Undisturbed(fails) ==> ok && !stopped) && Safe()
      ensures (ok ==> pending == [] && eventNo == 0) && (perTransaction <= 1 ==> pending == [])
      ensures old(Small(move)) || Undisturbed(fails) ==>
        && Counted(move, ok)
        && (ok && !stopped ==>
              curCount == limit || perTransaction == 0 || (if move then offset else offset + curCount) >= |src|)
      ensures old(Small(move)) ==> alwaysSafe == old(alwaysSafe)
      ensures old(!Small(move)) && Undisturbed(fails) && old(src[offset] !in committed) ==> !alwaysSafe
      ensures Looked(|old(looks)|, stopped)
    {
      hide Window, Without, AllIn, Undisturbed, BatchOf, Looked, Followed, Counted;
      ok, stopped := true, false;
      var more := true;
      ghost var small, big, from := Small(move), FirstBatch(), |looks|;
      ghost var steady := small || Undisturbed(fails);
      BatchBegins(perTransaction, offset, limitCopy, src);
      ghost var risky := !small && Undisturbed(fails) && src[offset] !in committed;
      ghost var first := true;
      while more && ok && !stopped
        invariant Undisturbed(fails) ==> ok && !stopped
        invariant (ok ==> eventNo == 0 && pending == []) && (perTransaction > 1 ==> open) && Safe()
        invariant FirstBatch() <= big && (perTransaction <= 1 ==> pending == [])
        invariant small ==> alwaysSafe == old(alwaysSafe)
        invariant first ==> more && ok && src == all && committed == had && limitCopy == old(limitCopy) && |looks| == from
        invariant if first then !stopped else Looked(from, stopped) && (risky ==> !alwaysSafe)
        invariant steady ==> Counted(move, ok)
        invariant steady && ok && !more ==>
          curCount == limit || perTransaction == 0 || (if move then offset else offset + curCount) >= |src|
        invariant !move ==> src == all && |committed| <= |had| + |src|
        decreases ok && more && !stopped, if move then |src| else |src| + |had| - |committed|
      {
        ok, more := Advance(move, steady);
        if !move { CopyBounded(); }
        stopped := Interrupted(from);
        first := false;
      }
    }
  }

  function Capped(limit: int, perTransaction: nat): nat {
    if 0 <= limit < perTransaction then limit else perTransaction
  }

  lemma NothingMoved(src: seq<Msg>, dst: seq<Msg>, offset: nat)
    ensures Copied(dst, dst, src, offset, 0) && Taken(src, src, offset, 0)
  {}

  /** The size of a batch from the given offset on. */
  function BatchOf(perTransaction: nat, offset: nat, limit: int, src: seq<Msg>): nat {
    |Window(src, offset, Capped(limit, perTransaction))|
  }

  lemma BatchBegins(perTransaction: nat, offset: nat, limit: int, src: seq<Msg>)
    ensures var n := Capped(limit, perTransaction);
      && BatchOf(perTransaction, offset, limit, src) == |Window(src, offset, n)| <= n
      && (Window(src, offset, n) != [] ==> offset < |src| && Window(src, offset, n)[0] == src[offset])
  {}

  lemma SmallerBatch(perTransaction: nat, offset: nat, limit: int, limit': int, src: seq<Msg>, src': seq<Msg>)
    requires |src'| <= |src| && (limit < 0 ==> limit' < 0) && (limit >= 0 ==> 0 <= limit' <= limit)
    ensures BatchOf(perTransaction, offset, limit', src') <= BatchOf(perTransaction, offset, limit, src)
  {}

  /** At most n elements from start on: LIMIT and OFFSET. */
  function Window(s: seq<Msg>, start: nat, n: nat): (w: seq<Msg>)
    ensures |w| <= n && |w| <= |s| && (w == [] <==> n == 0 || start >= |s|)
    ensures forall m :: m in w ==> m in s
  {
    if start >= |s| then [] else if start + n <= |s| then s[start..start + n] else s[start..]
  }

  // Whole commands.

  lemma Resumed(dst: seq<Msg>, src: seq<Msg>, offset: nat, n: nat, m: nat, mid: seq<Msg>, fin: seq<Msg>)
    requires Copied(mid, dst, src, offset, n) && Copied(fin, mid, src, offset + n, m)
    ensures Copied(fin, dst, src, offset, n + m)
  {
    if n > 0 && m > 0 {
      assert src[offset..offset + n] + src[offset + n..offset + n + m] == src[offset..offset + (n + m)];
      assert fin == dst + (src[offset..offset + n] + src[offset + n..offset + n + m]);
    }
  }

  /** A copy that was stopped by an error or by the user is continued with the offset and the
      limit that are left: together the two runs have added n messages, every one once and in
      order. If the second run is not disturbed, nothing is missing, whatever became of the first;
      with no events per transaction nothing is copied at all. */
  method CopyAndResume(perTransaction: nat, offset: nat, limit: int, fails: nat -> bool, failsAgain: nat -> bool,
                       src: seq<Msg>, dst: seq<Msg>)
    returns (fin: seq<Msg>, n: nat, complete: bool)
    ensures Copied(fin, dst, src, offset, n) && (limit >= 0 ==> n <= limit)
    ensures complete ==> n == limit || offset + n >= |src|
    ensures perTransaction > 0 && (Undisturbed(fails) || Undisturbed(failsAgain)) ==> complete
  {
    hide Window, Copied, Undisturbed;
    NothingMoved(src, dst, offset);
    var first := new Engine(perTransaction, offset, limit, fails, src, dst);
    first.SafeAtFirst();
    var ok, stopped := first.Transfer(false);
    fin, n, complete := first.committed, first.curCount, ok && !stopped && perTransaction > 0;
    if !complete {
      var rest := if limit < 0 then limit else limit - n;
      var second := new Engine(perTransaction, offset + n, rest, failsAgain, src, fin);
      second.SafeAtFirst();
      ok, stopped := second.Transfer(false);
      Resumed(dst, src, offset, n, second.curCount, fin, second.committed);
      fin, n, complete := second.committed, n + second.curCount, ok && !stopped && perTransaction > 0;
    }
  }

  /** How many messages an undisturbed move moves: the limit, or all from the offset on. */
  function Movable(perTransaction: nat, offset: nat, limit: int, src: seq<Msg>): nat {
    if perTransaction == 0 || offset >= |src| then 0
    else if 0 <= limit < |src| - offset then limit
    else |src| - offset
  }

  /** A move, as a whole, of distinct messages: the destination gets n of them from the offset on,
      in order, and the source loses m of these and nothing else, all of them if there is no error.
      If nothing fails n is the limit, or all that there is. At the end every message is in one of
      the two databases. It has been so at every step if the first batch does not fill the table; a
      move in which nothing fails loses sight of its first message for a while exactly when the
      batch does. */
  method Move(perTransaction: nat, offset: nat, limit: int, fails: nat -> bool, src: seq<Msg>, dst: seq<Msg>)
    returns (ok: bool, left: seq<Msg>, fin: seq<Msg>, n: nat, ghost m: nat, ghost alwaysSafe: bool)
    requires BatchOf(perTransaction, offset, limit, src) <= TABLESIZE || Undisturbed(fails)
    ensures AllIn(src, left, fin) && (Undisturbed(fails) ==> ok)
    ensures Distinct(src) && (BatchOf(perTransaction, offset, limit, src) < TABLESIZE || Undisturbed(fails)) ==>
      && Copied(fin, dst, src, offset, n) && Taken(left, src, offset, m)
      && m <= n && (ok ==> m == n) && (limit >= 0 ==> n <= limit)
      && (Undisturbed(fails) ==> n == Movable(perTransaction, offset, limit, src))
    ensures BatchOf(perTransaction, offset, limit, src) < TABLESIZE ==> alwaysSafe
    ensures Undisturbed(fails) && (offset < |src| ==> src[offset] !in dst) ==>
      (alwaysSafe <==> BatchOf(perTransaction, offset, limit, src) < TABLESIZE)
  {
    hide AllIn, Undisturbed, BatchOf, Distinct;
    var engine := new Engine(perTransaction, offset, limit, fails, src, dst);
    engine.SafeAtFirst();
    BatchBegins(perTransaction, offset, limit, src);
    var stopped;
    ok, stopped := engine.Transfer(true);
    left, fin, alwaysSafe, n := engine.src, engine.committed, engine.alwaysSafe, engine.curCount;
    m := 0;
    if Distinct(src) && (BatchOf(perTransaction, offset, limit, src) < TABLESIZE || Undisturbed(fails)) {
      m := engine.lost;
    }
  }

  /** With fewer events per transaction than the table has entries no batch fills it; with as many
      or more some source has one that does. */
  lemma SafeTransactions(perTransaction: nat, offset: nat)
    ensures perTransaction < TABLESIZE <==> forall limit, src :: BatchOf(perTransaction, offset, limit, src) < TABLESIZE
  {
    if perTransaction >= TABLESIZE {
      var src: seq<Msg> := seq(offset + TABLESIZE, i => i);
      assert BatchOf(perTransaction, offset, -1, src) >= TABLESIZE;
    }
  }
}
