/** Every step of the ring queue keeps its invariant, and what follows for every run. */
module QueueProof {
  import opened Arith
  import opened QueueMachine
  import opened QueueInvariant

  /** Claims less than a full turn apart use different entries. */
  lemma EntriesDiffer(m: nat, n: nat, size: nat)
    requires m < n < m + size
    ensures m % size != n % size
  {
    ModLe(m, size);
    ModLe(n, size);
    var q, p := m / size, n / size;
    Dist(p, q, size);
    if p > q { MulGe(p - q, size); } else { MulMono(p, q, size); }
  }

  lemma NextIndex(n: nat, size: nat)
    requires size > 0
    ensures Next(n % size, size) == (n + 1) % size
  {
    ModLe(n, size);
    var q, r := n / size, n % size;
    if r + 1 < size {
      DivUnique(n + 1, size, q, r + 1);
      DivUnique(r + 1, size, 0, r + 1);
    } else {
      Dist(q, -1, size);
      DivUnique(n + 1, size, q + 1, 0);
      DivUnique(r + 1, size, 1, 0);
    }
  }

  // ---------- threads that do not write an entry ----------

  /** The step changed nothing but the counters and thread `i`, which was and is not writing an entry. */
  ghost predicate QuietWriter(y: Sys, z: Sys, i: nat) {
    && z.s == y.s.(used := z.s.used, unavailable := z.s.unavailable) && z.rd == y.rd
    && i in z.ws && z.ws == y.ws[i := z.ws[i]]
    && (i in y.ws ==> !Writing(y.ws[i])) && !Writing(z.ws[i]) && !(Pending(z.ws[i]))
  }

  lemma QuietWrites(y: Sys, z: Sys, i: nat, n: nat)
    requires QuietWriter(y, z, i)
    ensures BeingWritten(z.ws, n) <==> BeingWritten(y.ws, n)
  {
    if BeingWritten(y.ws, n) {
      var j :| j in y.ws && Writing(y.ws[j]) && y.ws[j].t == n;
      assert j in z.ws && z.ws[j] == y.ws[j];
    }
    if BeingWritten(z.ws, n) {
      var j :| j in z.ws && Writing(z.ws[j]) && z.ws[j].t == n;
      assert j in y.ws && z.ws[j] == y.ws[j];
    }
  }

  lemma QuietEntries(y: Sys, z: Sys, i: nat)
    requires QuietWriter(y, z, i) && ClaimedOk(y) && FreeOk(y)
    ensures ClaimedOk(z) && FreeOk(z)
  {
    forall n ensures BeingWritten(z.ws, n) <==> BeingWritten(y.ws, n) { QuietWrites(y, z, i, n); }
  }

  lemma QuietWriters(y: Sys, z: Sys, i: nat)
    requires QuietWriter(y, z, i) && WritersOk(y) && WriterOk(z, z.ws[i])
    ensures WritersOk(z)
  {
    forall j | j in z.ws && j != i ensures WriterOk(z, z.ws[j]) {
      assert j in y.ws && z.ws[j] == y.ws[j] && WriterOk(y, y.ws[j]);
    }
  }

  lemma QuietReader(y: Sys, z: Sys, i: nat)
    requires QuietWriter(y, z, i) && ReaderOk(y)
    ensures ReaderOk(z)
  {
    QuietWrites(y, z, i, |y.s.popped|);
  }

  lemma CountAll(y: Sys, z: Sys, i: nat)
    requires i in z.ws && z.ws == y.ws[i := z.ws[i]]
    ensures var x := z.ws[i];
      && Fails(z.ws) == Fails(y.ws) - (if i in y.ws && Failing(y.ws[i]) then 1 else 0) + (if Failing(x) then 1 else 0)
      && Claims(z.ws) == Claims(y.ws) - (if i in y.ws &&
        Claiming(y.ws[i]) then 1 else 0) + (if Claiming(x) then 1 else 0)
      && Pends(z.ws) == Pends(y.ws) - (if i in y.ws && Pending(y.ws[i]) then 1 else 0) + (if Pending(x) then 1 else 0)
      && Successes(z.ws) == Successes(y.ws) - (if i in y.ws &&
        Succeeded(y.ws[i]) then 1 else 0) + (if Succeeded(x) then 1 else 0)
  {
    CountMoves(y.ws, i, z.ws[i], Failing);
    CountMoves(y.ws, i, z.ws[i], Claiming);
    CountMoves(y.ws, i, z.ws[i], Pending);
    CountMoves(y.ws, i, z.ws[i], Succeeded);
  }

  /** A thread on the list is in its count. */
  lemma CountedIn(ws: map<nat, Writer>, i: nat, p: Writer -> bool)
    requires i in ws && p(ws[i])
    ensures |Those(ws, p)| >= 1
  {
    assert i in Those(ws, p);
  }

  ghost predicate QuietKind(y: Sys, z: Sys, i: nat) {
    i in y.ws ==>
      y.ws[i].Reserve? || y.ws[i].Cancel? || y.ws[i].ReadTail? || y.ws[i].Announce? ||
      (y.ws[i].SwapTail? && i in z.ws && z.ws[i].ReadTail?)
  }

  lemma QuietIs(y: Sys, z: Sys, i: nat)
    requires WriterStep(y, z, i) && QuietKind(y, z, i) && (i in y.ws ==> WriterOk(y, y.ws[i]))
    ensures QuietWriter(y, z, i) && WriterOk(z, z.ws[i])
  {
  }

  lemma QuietCounts(y: Sys, z: Sys, i: nat)
    requires WriterStep(y, z, i) && QuietKind(y, z, i) && CountsOk(y)
    ensures CountsOk(z)
  {
    CountAll(y, z, i);
  }

  lemma QuietRest(y: Sys, z: Sys, i: nat)
    requires QuietWriter(y, z, i) && IndicesOk(y) && OrderOk(y)
    ensures IndicesOk(z) && OrderOk(z)
  {
  }

  lemma QuietStep(y: Sys, z: Sys, i: nat)
    requires Inv(y) && WriterStep(y, z, i) && QuietKind(y, z, i)
    ensures Inv(z)
  {
    QuietIs(y, z, i);
    QuietCounts(y, z, i);
    QuietEntries(y, z, i);
    QuietWriters(y, z, i);
    QuietReader(y, z, i);
    QuietRest(y, z, i);
  }

  // ---------- claiming an entry ----------

  ghost predicate Claimed(y: Sys, z: Sys, i: nat) {
    && i in y.ws && y.ws[i].SwapTail? && i in z.ws && z.rd == y.rd
    && z.ws == y.ws[i := Check(y.ws[i].item, y.s.tail, |y.s.pushed|)]
    && y.s.size > 0 && z.s == y.s.(tail := Next(y.s.tail, y.s.size), pushed := y.s.pushed + [y.ws[i].item])
  }

  lemma ClaimWrites(y: Sys, z: Sys, i: nat, n: nat)
    requires Claimed(y, z, i) && WritersOk(y)
    ensures BeingWritten(z.ws, n) <==> BeingWritten(y.ws, n) || n == |y.s.pushed|
  {
    if BeingWritten(y.ws, n) {
      var j :| j in y.ws && Writing(y.ws[j]) && y.ws[j].t == n;
      assert j in z.ws && z.ws[j] == y.ws[j];
    }
    if BeingWritten(z.ws, n) {
      var j :| j in z.ws && Writing(z.ws[j]) && z.ws[j].t == n;
      if j != i { assert j in y.ws && z.ws[j] == y.ws[j]; }
    }
    assert Writing(z.ws[i]);
  }

  /** The entry a claim gets is free: no claim that has not been freed uses it. */
  lemma ClaimGetsFree(y: Sys, z: Sys, i: nat)
    requires Claimed(y, z, i) && CountsOk(y) && IndicesOk(y) && FreeOk(y) && OrderOk(y)
    ensures y.s.tail == |y.s.pushed| % y.s.size < |y.s.entries| && y.s.entries[y.s.tail].state == Free
  {
    CountedIn(y.ws, i, Claiming);
    var e := y.s.tail;
    ModLe(|y.s.pushed|, y.s.size);
    if y.s.entries[e].state == Ready {
      var n :| FirstKept(y) <= n < |y.s.pushed| && n % y.s.size == e;
      EntriesDiffer(n, |y.s.pushed|, y.s.size);
    }
  }

  lemma ClaimEntries(y: Sys, z: Sys, i: nat)
    requires Claimed(y, z, i) && CountsOk(y) && IndicesOk(y) && ClaimedOk(y) && FreeOk(y) && WritersOk(y) && OrderOk(y)
    ensures ClaimedOk(z) && FreeOk(z)
  {
    ClaimGetsFree(y, z, i);
    forall n ensures BeingWritten(z.ws, n) <==> BeingWritten(y.ws, n) || n == |y.s.pushed| { ClaimWrites(y, z, i, n); }
    forall e | 0 <= e < |z.s.entries| && z.s.entries[e].state == Ready
      ensures exists n :: FirstKept(z) <= n < |z.s.pushed| && z.s.size > 0 && n % z.s.size == e
    {
      var n :| FirstKept(y) <= n < |y.s.pushed| && n % y.s.size == e;
      assert FirstKept(z) <= n < |z.s.pushed|;
    }
  }

  lemma ClaimWriters(y: Sys, z: Sys, i: nat)
    requires Claimed(y, z, i) && IndicesOk(y) && WritersOk(y) && OrderOk(y) && FirstKept(y) <= |y.s.pushed|
    ensures WritersOk(z)
  {
    forall j | j in z.ws && j != i ensures WriterOk(z, z.ws[j]) {
      assert j in y.ws && z.ws[j] == y.ws[j] && WriterOk(y, y.ws[j]);
    }
  }

  lemma ClaimReader(y: Sys, z: Sys, i: nat)
    requires Claimed(y, z, i) && ReaderOk(y) && WritersOk(y)
    ensures ReaderOk(z)
  {
    if y.rd.GiveBack? { ClaimWrites(y, z, i, |y.s.popped|); }
  }

  lemma ClaimCounts(y: Sys, z: Sys, i: nat)
    requires Claimed(y, z, i) && CountsOk(y)
    ensures CountsOk(z)
  {
    CountAll(y, z, i);
  }

  lemma ClaimIndices(y: Sys, z: Sys, i: nat)
    requires Claimed(y, z, i) && IndicesOk(y)
    ensures IndicesOk(z)
  {
    NextIndex(|y.s.pushed|, y.s.size);
  }

  lemma ClaimStep(y: Sys, z: Sys, i: nat)
    requires Inv(y) && Claimed(y, z, i)
    ensures Inv(z)
  {
    ClaimCounts(y, z, i);
    ClaimIndices(y, z, i);
    ClaimEntries(y, z, i);
    ClaimWriters(y, z, i);
    ClaimReader(y, z, i);
  }

  // ---------- filling an entry ----------

  /** Thread `i` goes on with the entry it claimed. */
  ghost predicate SameClaim(y: Sys, z: Sys, i: nat) {
    && i in y.ws && i in z.ws && z.ws == y.ws[i := z.ws[i]] && z.rd == y.rd
    && Writing(y.ws[i]) && Writing(z.ws[i]) && z.ws[i].t == y.ws[i].t && z.ws[i].e == y.ws[i].e
    && z.s == y.s.(entries := z.s.entries)
  }

  lemma SameWrites(y: Sys, z: Sys, i: nat, n: nat)
    requires SameClaim(y, z, i)
    ensures BeingWritten(z.ws, n) <==> BeingWritten(y.ws, n)
  {
    if BeingWritten(y.ws, n) {
      var j :| j in y.ws && Writing(y.ws[j]) && y.ws[j].t == n;
      assert j in z.ws && Writing(z.ws[j]) && z.ws[j].t == n;
    }
    if BeingWritten(z.ws, n) {
      var j :| j in z.ws && Writing(z.ws[j]) && z.ws[j].t == n;
      assert j in y.ws && Writing(y.ws[j]) && y.ws[j].t == n;
    }
  }

  /** A writer's entry is free and no other claim uses it. */
  lemma OwnEntry(y: Sys, i: nat)
    requires CountsOk(y) && IndicesOk(y) && ClaimedOk(y) && WritersOk(y) && i in y.ws && Writing(y.ws[i])
    ensures var n := y.ws[i].t;
      && FirstKept(y) <= n < |y.s.pushed| && y.s.size > 0 && n % y.s.size < |y.s.entries| &&
        y.s.entries[n % y.s.size].state == Free
      && forall m | FirstKept(y) <= m < |y.s.pushed| && m != n :: m % y.s.size != n % y.s.size
  {
    var n := y.ws[i].t;
    assert WriterOk(y, y.ws[i]) && BeingWritten(y.ws, n);
    forall m | FirstKept(y) <= m < |y.s.pushed| && m != n ensures m % y.s.size != n % y.s.size {
      if m < n { EntriesDiffer(m, n, y.s.size); } else { EntriesDiffer(n, m, y.s.size); }
    }
  }

  /** The check for an entry that is not free never fires. */
  lemma CheckPasses(y: Sys, z: Sys, i: nat)
    requires Inv(y) && WriterStep(y, z, i) && i in y.ws && y.ws[i].Check?
    ensures z.s == y.s && z.ws[i] == Copy(y.ws[i].item, y.ws[i].e, y.ws[i].t, 0)
  {
    OwnEntry(y, i);
  }

  /** Only the data of the writer's own entry changed. */
  ghost predicate OwnBytes(y: Sys, z: Sys, i: nat) {
    && SameClaim(y, z, i) && |z.s.entries| == |y.s.entries|
    && forall e | 0 <= e < |y.s.entries| ::
         && z.s.entries[e].state == y.s.entries[e].state && |z.s.entries[e].data| == |y.s.entries[e].data|
         && (y.s.size > 0 && e != y.ws[i].t % y.s.size ==> z.s.entries[e] == y.s.entries[e])
  }

  lemma FillEntries(y: Sys, z: Sys, i: nat)
    requires CountsOk(y) && IndicesOk(y) && ClaimedOk(y) && WritersOk(y) && OwnBytes(y, z, i)
    ensures ClaimedOk(z)
  {
    OwnEntry(y, i);
    forall n ensures BeingWritten(z.ws, n) <==> BeingWritten(y.ws, n) { SameWrites(y, z, i, n); }
  }

  lemma FillFree(y: Sys, z: Sys, i: nat)
    requires FreeOk(y) && OwnBytes(y, z, i)
    ensures FreeOk(z)
  {
    forall e | 0 <= e < |z.s.entries| && z.s.entries[e].state == Ready
      ensures exists n :: FirstKept(z) <= n < |z.s.pushed| && z.s.size > 0 && n % z.s.size == e
    {
      var n :| FirstKept(y) <= n < |y.s.pushed| && y.s.size > 0 && n % y.s.size == e;
      assert FirstKept(z) <= n < |z.s.pushed|;
    }
  }

  lemma FillWriters(y: Sys, z: Sys, i: nat)
    requires CountsOk(y) && IndicesOk(y) && ClaimedOk(y) && WritersOk(y) && OwnBytes(y, z, i) && WriterOk(z, z.ws[i])
    ensures WritersOk(z)
  {
    OwnEntry(y, i);
    forall j | j in z.ws && j != i ensures WriterOk(z, z.ws[j]) {
      assert j in y.ws && z.ws[j] == y.ws[j] && WriterOk(y, y.ws[j]);
    }
  }

  lemma FillReader(y: Sys, z: Sys, i: nat)
    requires CountsOk(y) && IndicesOk(y) && ClaimedOk(y) && WritersOk(y) && ReaderOk(y) && OwnBytes(y, z, i)
    ensures ReaderOk(z)
  {
    OwnEntry(y, i);
    SameWrites(y, z, i, |y.s.popped|);
  }

  lemma FillCounts(y: Sys, z: Sys, i: nat)
    requires CountsOk(y) && SameClaim(y, z, i)
    ensures CountsOk(z)
  {
    CountAll(y, z, i);
  }

  lemma FillIndices(y: Sys, z: Sys, i: nat)
    requires IndicesOk(y) && OrderOk(y) && OwnBytes(y, z, i)
    ensures IndicesOk(z) && OrderOk(z)
  {
  }

  lemma FillKeeps(y: Sys, z: Sys, i: nat)
    requires Inv(y) && OwnBytes(y, z, i) && WriterOk(z, z.ws[i])
    ensures Inv(z)
  {
    FillCounts(y, z, i);
    FillIndices(y, z, i);
    FillEntries(y, z, i);
    FillFree(y, z, i);
    FillWriters(y, z, i);
    FillReader(y, z, i);
  }

  lemma FillIs(y: Sys, z: Sys, i: nat)
    requires WriterStep(y, z, i) && i in y.ws && WriterOk(y, y.ws[i]) && IndicesOk(y)
    requires y.ws[i].Copy? || (y.ws[i].Check? && z.s == y.s && z.ws[i] == Copy(y.ws[i].item, y.ws[i].e, y.ws[i].t, 0))
    ensures OwnBytes(y, z, i) && WriterOk(z, z.ws[i])
  {
    if y.ws[i].Copy? && y.ws[i].i < y.s.entrySize {
      var e, k, item := y.ws[i].e, y.ws[i].i, y.ws[i].item;
      assert z.s.entries[e].data[..k + 1] == y.s.entries[e].data[..k] + [item[k]] == item[..k + 1];
    } else if y.ws[i].Copy? {
      var e, item := y.ws[i].e, y.ws[i].item;
      assert y.s.entries[e].data == y.s.entries[e].data[..|item|] == item[..|item|] == item;
    }
  }

  lemma FillStep(y: Sys, z: Sys, i: nat)
    requires Inv(y) && WriterStep(y, z, i) && i in y.ws && (y.ws[i].Check? || y.ws[i].Copy?)
    ensures Inv(z)
  {
    if y.ws[i].Check? { CheckPasses(y, z, i); }
    OwnEntry(y, i);
    FillIs(y, z, i);
    FillKeeps(y, z, i);
  }

  // ---------- making an entry ready ----------

  ghost predicate Posted(y: Sys, z: Sys, i: nat) {
    && i in y.ws && y.ws[i].Post? && z.ws == y.ws[i := Announce(y.ws[i].item, y.ws[i].t)] && z.rd == y.rd
    && y.s.size > 0 && y.ws[i].t % y.s.size < |y.s.entries| && z.s == SetState(y.s, y.ws[i].t % y.s.size, Ready)
  }

  lemma PostWrites(y: Sys, z: Sys, i: nat, n: nat)
    requires Posted(y, z, i) && WritersOk(y)
    ensures BeingWritten(z.ws, n) <==> BeingWritten(y.ws, n) && n != y.ws[i].t
  {
    if BeingWritten(y.ws, n) && n != y.ws[i].t {
      var j :| j in y.ws && Writing(y.ws[j]) && y.ws[j].t == n;
      assert j in z.ws && Writing(z.ws[j]) && z.ws[j].t == n;
    }
    if BeingWritten(z.ws, n) {
      var j :| j in z.ws && Writing(z.ws[j]) && z.ws[j].t == n;
      assert j in y.ws && Writing(y.ws[j]) && y.ws[j].t == n;
    }
  }

  lemma PostEntries(y: Sys, z: Sys, i: nat)
    requires CountsOk(y) && IndicesOk(y) && ClaimedOk(y) && WritersOk(y) && Posted(y, z, i)
    ensures ClaimedOk(z)
  {
    OwnEntry(y, i);
    assert WriterOk(y, y.ws[i]);
    forall n ensures BeingWritten(z.ws, n) <==> BeingWritten(y.ws, n) && n != y.ws[i].t { PostWrites(y, z, i, n); }
  }

  lemma PostFree(y: Sys, z: Sys, i: nat)
    requires CountsOk(y) && IndicesOk(y) && ClaimedOk(y) && FreeOk(y) && WritersOk(y) && Posted(y, z, i)
    ensures FreeOk(z)
  {
    OwnEntry(y, i);
    forall e | 0 <= e < |z.s.entries| && z.s.entries[e].state == Ready
      ensures exists n :: FirstKept(z) <= n < |z.s.pushed| && z.s.size > 0 && n % z.s.size == e
    {
      if e == y.ws[i].t % y.s.size {
        assert FirstKept(z) <= y.ws[i].t < |z.s.pushed|;
      } else {
        var n :| FirstKept(y) <= n < |y.s.pushed| && y.s.size > 0 && n % y.s.size == e;
        assert FirstKept(z) <= n < |z.s.pushed|;
      }
    }
  }

  lemma PostWriters(y: Sys, z: Sys, i: nat)
    requires WritersOk(y) && IndicesOk(y) && Posted(y, z, i)
    ensures WritersOk(z)
  {
    forall j | j in z.ws ensures WriterOk(z, z.ws[j]) {
      assert j in y.ws && WriterOk(y, y.ws[j]);
    }
  }

  lemma PostReader(y: Sys, z: Sys, i: nat)
    requires WritersOk(y) && ReaderOk(y) && Posted(y, z, i)
    ensures ReaderOk(z)
  {
    PostWrites(y, z, i, |y.s.popped|);
  }

  lemma PostRest(y: Sys, z: Sys, i: nat)
    requires CountsOk(y) && IndicesOk(y) && OrderOk(y) && Posted(y, z, i)
    ensures CountsOk(z) && IndicesOk(z) && OrderOk(z)
  {
    CountAll(y, z, i);
  }

  lemma PostStep(y: Sys, z: Sys, i: nat)
    requires Inv(y) && Posted(y, z, i)
    ensures Inv(z)
  {
    PostEntries(y, z, i);
    PostFree(y, z, i);
    PostWriters(y, z, i);
    PostReader(y, z, i);
    PostRest(y, z, i);
  }

  lemma WriterKeeps(y: Sys, z: Sys, i: nat)
    requires Inv(y) && WriterStep(y, z, i)
    ensures Inv(z)
  {
    if QuietKind(y, z, i) {
      QuietStep(y, z, i);
    } else if y.ws[i].SwapTail? {
      ClaimStep(y, z, i);
    } else if y.ws[i].Post? {
      assert WriterOk(y, y.ws[i]);
      PostStep(y, z, i);
    } else {
      assert WriterOk(y, y.ws[i]);
      FillStep(y, z, i);
    }
  }

  // ---------- the reader ----------

  /** A step of the reader that leaves the entries and what was popped alone. */
  ghost predicate QuietReaderStep(y: Sys, z: Sys) {
    && ReaderStep(y, z) && !y.rd.Release? && !y.rd.GiveBack?
  }

  lemma ReaderEntries(y: Sys, z: Sys)
    requires QuietReaderStep(y, z) && ClaimedOk(y) && FreeOk(y) && WritersOk(y) && OrderOk(y)
    ensures ClaimedOk(z) && FreeOk(z) && WritersOk(z) && OrderOk(z)
  {
    assert FirstKept(z) == FirstKept(y) && z.s.entries == y.s.entries && z.s.pushed == y.s.pushed;
    forall j | j in z.ws ensures WriterOk(z, z.ws[j]) {
      assert WriterOk(y, y.ws[j]);
    }
  }

  lemma ReaderCounts(y: Sys, z: Sys)
    requires QuietReaderStep(y, z) && CountsOk(y)
    ensures CountsOk(z)
  {
  }

  lemma ReaderIndices(y: Sys, z: Sys)
    requires QuietReaderStep(y, z) && IndicesOk(y) && ReaderOk(y) && CountsOk(y)
    ensures IndicesOk(z)
  {
    if y.rd.SwapHead? { NextIndex(|y.s.popped|, y.s.size); }
  }

  /** The entry at the head holds the first item not popped, once it is ready. */
  lemma HeadItem(y: Sys)
    requires Inv(y) && HoldingOne(y.rd) && !y.rd.GiveBack?
    ensures var f := |y.s.popped|;
      f < |y.s.pushed| && y.s.size > 0 && f % y.s.size < |y.s.entries|
      && (y.s.entries[f % y.s.size].state == Ready ==> y.s.entries[f % y.s.size].data == y.s.pushed[f])
  {
  }

  /** A byte more, or the whole item. */
  lemma FetchLocal(y: Sys, z: Sys)
    requires IndicesOk(y) && ReaderOk(y) && OrderOk(y) && ReaderStep(y, z) && y.rd.Fetch?
    requires y.s.entries[y.rd.idx].data == y.s.pushed[|y.s.popped|]
    ensures ReaderOk(z)
  {
    var item, n := y.s.pushed[|y.s.popped|], |y.rd.buf|;
    if n < y.s.entrySize {
      assert y.rd.buf + [item[n]] <= item;
    } else {
      assert y.rd.buf == item;
    }
  }

  /** An entry found ready is the one of the next item. */
  lemma LookLocal(y: Sys, z: Sys)
    requires IndicesOk(y) && ReaderOk(y) && ReaderStep(y, z) && y.rd.Look?
    requires |y.s.popped| < |y.s.pushed|
    ensures ReaderOk(z)
  {
  }

  lemma HeadLocal(y: Sys, z: Sys)
    requires IndicesOk(y) && ReaderOk(y) && ReaderStep(y, z) && (y.rd.ReadHead? || y.rd.SwapHead?) && y.s.size > 0
    ensures ReaderOk(z)
  {
  }

  lemma ReaderLocal(y: Sys, z: Sys)
    requires Inv(y) && QuietReaderStep(y, z)
    ensures ReaderOk(z)
  {
    if y.rd.Fetch? {
      HeadItem(y);
      FetchLocal(y, z);
    } else if y.rd.Look? {
      HeadItem(y);
      LookLocal(y, z);
    } else if y.rd.ReadHead? || y.rd.SwapHead? {
      HeadItem(y);
      HeadLocal(y, z);
    }
  }

  lemma QuietReaderKeeps(y: Sys, z: Sys)
    requires Inv(y) && QuietReaderStep(y, z)
    ensures Inv(z)
  {
    ReaderEntries(y, z);
    ReaderCounts(y, z);
    ReaderIndices(y, z);
    ReaderLocal(y, z);
  }

  lemma ReleaseEntries(y: Sys, z: Sys)
    requires CountsOk(y) && IndicesOk(y) && ClaimedOk(y) && ReaderOk(y) && ReaderStep(y, z) && y.rd.Release?
    ensures ClaimedOk(z)
  {
    var f := |y.s.popped|;
    forall n | f < n < |y.s.pushed| ensures n % y.s.size != f % y.s.size {
      EntriesDiffer(f, n, y.s.size);
    }
  }

  lemma ReleaseFree(y: Sys, z: Sys)
    requires FreeOk(y) && ReaderOk(y) && ReaderStep(y, z) && y.rd.Release?
    ensures FreeOk(z)
  {
    var f := |y.s.popped|;
    forall e | 0 <= e < |z.s.entries| && z.s.entries[e].state == Ready
      ensures exists n :: FirstKept(z) <= n < |z.s.pushed| && z.s.size > 0 && n % z.s.size == e
    {
      var n :| FirstKept(y) <= n < |y.s.pushed| && y.s.size > 0 && n % y.s.size == e;
      assert n != f;
      assert FirstKept(z) <= n < |z.s.pushed|;
    }
  }

  lemma ReleaseWriters(y: Sys, z: Sys)
    requires IndicesOk(y) && ClaimedOk(y) && WritersOk(y) && ReaderOk(y) && ReaderStep(y, z) && y.rd.Release?
    ensures WritersOk(z) && !BeingWritten(z.ws, |z.s.popped|)
  {
    var f := |y.s.popped|;
    assert !BeingWritten(y.ws, f);
    forall j | j in z.ws ensures WriterOk(z, z.ws[j]) {
      assert WriterOk(y, y.ws[j]);
      assert Writing(y.ws[j]) ==> y.ws[j].t != f;
    }
  }

  lemma ReleaseStep(y: Sys, z: Sys)
    requires Inv(y) && ReaderStep(y, z) && y.rd.Release?
    ensures Inv(z)
  {
    ReleaseEntries(y, z);
    ReleaseFree(y, z);
    ReleaseWriters(y, z);
    ReleaseRest(y, z);
  }

  lemma ReleaseRest(y: Sys, z: Sys)
    requires CountsOk(y) && IndicesOk(y) && OrderOk(y) && ReaderOk(y) && ReaderStep(y, z) && y.rd.Release? &&
      !BeingWritten(z.ws, |z.s.popped|)
    ensures CountsOk(z) && IndicesOk(z) && OrderOk(z) && ReaderOk(z)
  {
  }

  lemma GiveBackEntries(y: Sys, z: Sys)
    requires ClaimedOk(y) && FreeOk(y) && WritersOk(y) && ReaderStep(y, z) && y.rd.GiveBack?
    ensures ClaimedOk(z) && FreeOk(z) && WritersOk(z)
  {
    assert FirstKept(z) == FirstKept(y) && z.s.entries == y.s.entries && z.s.pushed == y.s.pushed;
    forall j | j in z.ws ensures WriterOk(z, z.ws[j]) {
      assert WriterOk(y, y.ws[j]);
    }
  }

  lemma GiveBackRest(y: Sys, z: Sys)
    requires CountsOk(y) && IndicesOk(y) && OrderOk(y) && ReaderOk(y) && ReaderStep(y, z) && y.rd.GiveBack?
    ensures CountsOk(z) && IndicesOk(z) && OrderOk(z) && ReaderOk(z)
  {
    assert z.s.popped == y.s.popped + [y.s.pushed[|y.s.popped|]];
  }

  lemma ReaderKeeps(y: Sys, z: Sys)
    requires Inv(y) && ReaderStep(y, z)
    ensures Inv(z)
  {
    if y.rd.Release? {
      ReleaseStep(y, z);
    } else if y.rd.GiveBack? {
      GiveBackEntries(y, z);
      GiveBackRest(y, z);
    } else {
      QuietReaderKeeps(y, z);
    }
  }
}
