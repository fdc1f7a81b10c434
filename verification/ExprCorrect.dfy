/** Running the code of an expression leaves its value in the chosen register, restores the push stack exactly, and
    keeps every register below. */
module ExprCorrect {
  import opened Words
  import opened Il
  import opened Ast
  import opened Levels
  import opened Semantics
  import opened Straight
  import opened Compile
  import IlMachine

  // ----- registers a piece of code uses -----

  predicate RegOk(ins: Instr, n: nat) {
    0 <= ins.param < n && (IsBinary(ins.op) || ins.op.ReadAddr? || ins.op.WriteAddr? || ins.op.PointerCall? ==>
      0 <= ins.int1 < n)
  }

  /** Every register named is below n. */
  predicate RegsBelow(code: seq<Instr>, n: nat) {
    forall k :: 0 <= k < |code| ==> RegOk(code[k], n)
  }

  lemma RegsSplit(a: seq<Instr>, b: seq<Instr>, n: nat)
    requires RegsBelow(a + b, n)
    ensures RegsBelow(a, n) && RegsBelow(b, n)
  {
    forall k | 0 <= k < |a| ensures RegOk(a[k], n) { assert RegOk((a + b)[k], n); }
    forall k | 0 <= k < |b| ensures RegOk(b[k], n) { assert RegOk((a + b)[|a| + k], n); }
  }

  lemma RegFirst(ins: Instr, n: nat)
    requires RegsBelow([ins], n)
    ensures RegOk(ins, n)
  {
    assert RegOk([ins][0], n);
  }

  // ----- what a piece of code is to do -----

  /** v in register p, the memory mem, the stack as before, registers below p as before. */
  ghost predicate Leaves(st: St, t: St, p: nat, v: Word, mem: Mem) {
    Keeps(st, t, p) && p < |t.regs| && t.regs[p] == v && t.mem == mem
  }

  ghost predicate Keeps(st: St, t: St, p: nat) {
    |t.regs| == |st.regs| && t.stack == st.stack && t.entered == st.entered
    && (forall k :: 0 <= k < p && k < |t.regs| ==> t.regs[k] == st.regs[k])
  }

  // ----- the tree and the operator stack -----

  predicate AllBinary(ops: seq<Op>) {
    forall k :: 0 <= k < |ops| ==> IsBinary(ops[k])
  }

  /** Strictly increasing priorities, bottom to top. */
  predicate Increasing(ops: seq<Op>) {
    forall j, k :: 0 <= j < k < |ops| ==> Priority(ops[j]) < Priority(ops[k])
  }

  /** There are four priorities, so the stack of operators never holds more than four of its ten entries. */
  lemma StackBounded(ops: seq<Op>)
    requires Increasing(ops)
    ensures |ops| <= 4
  {
    if ops != [] {
      PriorityGrows(ops, |ops| - 1);
    }
  }

  lemma {:induction false} PriorityGrows(ops: seq<Op>, k: nat)
    requires Increasing(ops) && k < |ops|
    ensures Priority(ops[k]) >= k - 2
  {
    if k > 0 {
      PriorityGrows(ops, k - 1);
    }
  }

  lemma TreeUnfold(vs: seq<Word>, ops: seq<Op>, k: nat)
    requires |vs| == |ops| + 1 && AllBinary(ops) && ops != [] && Root(ops) == k
    ensures TreeValue(vs, ops) == Binary(ops[k], TreeValue(vs[..k + 1], ops[..k]), TreeValue(vs[k + 1..], ops[k + 1..]))
  {
  }

  /** The operator j is a handle: it binds tighter than its left neighbour and at least as tightly as its right one. */
  predicate Handle(ops: seq<Op>, j: nat) {
    && j < |ops|
    && (j > 0 ==> Priority(ops[j - 1]) < Priority(ops[j]))
    && (j + 1 < |ops| ==> Priority(ops[j + 1]) <= Priority(ops[j]))
  }

  /** vs' is vs with elements j and j+1 replaced by v. */
  predicate Merged(vs: seq<Word>, j: nat, v: Word, vs': seq<Word>) {
    && j + 1 < |vs| && |vs'| == |vs| - 1
    && vs'[..j] == vs[..j] && vs'[j] == v && vs'[j + 1..] == vs[j + 2..]
  }

  /** ops' is ops without element j. */
  predicate Dropped(ops: seq<Op>, j: nat, ops': seq<Op>) {
    j < |ops| && |ops'| == |ops| - 1 && ops'[..j] == ops[..j] && ops'[j..] == ops[j + 1..]
  }

  /** Combining the two values around a handle does not change the tree's value. */
  lemma {:induction false} TreeStep(vs: seq<Word>, ops: seq<Op>, j: nat, vs': seq<Word>, ops': seq<Op>)
    requires |vs| == |ops| + 1 && AllBinary(ops) && Handle(ops, j)
    requires Merged(vs, j, Binary(ops[j], vs[j], vs[j + 1]), vs') && Dropped(ops, j, ops')
    ensures AllBinary(ops') && TreeValue(vs, ops) == TreeValue(vs', ops')
    decreases |ops|
  {
    hide Binary, TreeValue, Root, Priority;
    DroppedBinary(ops, j, ops');
    if |ops| == 1 {
      TreeSingle(vs, ops, vs', ops');
    } else {
      HandleNotRoot(ops, j);
      var k := Root(ops);
      if k < j {
        DroppedAbove(ops, j, ops', k + 1);
        MergedAbove(vs, j, vs'[j], vs', k + 1);
        TreeStep(vs[k + 1..], ops[k + 1..], j - k - 1, vs'[k + 1..], ops'[k + 1..]);
        TreeAbove(vs, ops, j, vs'[j], vs', ops', k);
      } else {
        DroppedBelow(ops, j, ops', k);
        MergedBelow(vs, j, vs'[j], vs', k + 1);
        TreeStep(vs[..k + 1], ops[..k], j, vs'[..k], ops'[..k - 1]);
        TreeBelow(vs, ops, j, vs'[j], vs', ops', k);
      }
    }
  }

  lemma TreeSingle(vs: seq<Word>, ops: seq<Op>, vs': seq<Word>, ops': seq<Op>)
    requires |ops| == 1 && |vs| == 2 && IsBinary(ops[0]) && ops' == []
    requires |vs'| == 1 && vs'[0] == Binary(ops[0], vs[0], vs[1])
    ensures TreeValue(vs, ops) == TreeValue(vs', ops')
  {
    hide Binary, TreeValue;
    TreeUnfold(vs, ops, 0);
    TreeLeaf(vs[..1]);
    TreeLeaf(vs[1..]);
    TreeLeaf(vs');
    assert ops[..0] == [] && ops[1..] == [];
  }

  /** The handle lies to the right of the root, and the right subtree keeps its value. */
  lemma TreeAbove(vs: seq<Word>, ops: seq<Op>, j: nat, v: Word, vs': seq<Word>, ops': seq<Op>, k: nat)
    requires |vs| == |ops| + 1 && AllBinary(ops) && AllBinary(ops') && Handle(ops, j) && |ops| > 1
    requires Merged(vs, j, v, vs') && Dropped(ops, j, ops') && k == Root(ops) < j
    requires TreeValue(vs[k + 1..], ops[k + 1..]) == TreeValue(vs'[k + 1..], ops'[k + 1..])
    ensures TreeValue(vs, ops) == TreeValue(vs', ops')
  {
    hide Binary, TreeValue, Root, Priority, AllBinary, Handle;
    RootAfter(ops, j, ops', k);
    TreeUnfold(vs, ops, k);
    TreeUnfold(vs', ops', k);
    assert ops'[..k] == ops'[..j][..k] == ops[..k];
    assert vs'[..k + 1] == vs'[..j][..k + 1] == vs[..k + 1];
    assert ops'[k] == ops'[..j][k] == ops[k];
  }

  /** The handle lies to the left of the root, and the left subtree keeps its value. */
  lemma TreeBelow(vs: seq<Word>, ops: seq<Op>, j: nat, v: Word, vs': seq<Word>, ops': seq<Op>, k: nat)
    requires |vs| == |ops| + 1 && AllBinary(ops) && AllBinary(ops') && Handle(ops, j) && |ops| > 1
    requires Merged(vs, j, v, vs') && Dropped(ops, j, ops') && j < k == Root(ops)
    requires TreeValue(vs[..k + 1], ops[..k]) == TreeValue(vs'[..k], ops'[..k - 1])
    ensures TreeValue(vs, ops) == TreeValue(vs', ops')
  {
    hide Binary, TreeValue, Root, Priority, AllBinary, Handle;
    RootAfter(ops, j, ops', k - 1);
    TreeUnfold(vs, ops, k);
    TreeUnfold(vs', ops', k - 1);
    assert ops'[k..] == ops'[j..][k - j..] == ops[k + 1..];
    assert vs'[k..] == vs'[j + 1..][k - j - 1..] == vs[k + 1..];
    assert ops'[k - 1] == ops'[j..][k - 1 - j] == ops[k];
  }

  lemma DroppedBinary(ops: seq<Op>, j: nat, ops': seq<Op>)
    requires Dropped(ops, j, ops') && AllBinary(ops)
    ensures AllBinary(ops')
  {
    forall i | 0 <= i < |ops'| ensures IsBinary(ops'[i]) {
      assert ops'[i] == if i < j then ops'[..j][i] else ops'[j..][i - j];
      assert ops'[i] == if i < j then ops[i] else ops[i + 1];
    }
  }

  lemma DroppedAbove(ops: seq<Op>, j: nat, ops': seq<Op>, k: nat)
    requires Dropped(ops, j, ops') && k <= j
    ensures Dropped(ops[k..], j - k, ops'[k..])
  {
    assert ops'[k..][..j - k] == ops'[..j][k..] && ops[k..][..j - k] == ops[..j][k..];
    assert ops'[k..][j - k..] == ops'[j..] && ops[k..][j - k + 1..] == ops[j + 1..];
  }

  lemma DroppedBelow(ops: seq<Op>, j: nat, ops': seq<Op>, k: nat)
    requires Dropped(ops, j, ops') && j < k <= |ops|
    ensures Dropped(ops[..k], j, ops'[..k - 1])
  {
    assert ops'[..k - 1][..j] == ops'[..j] && ops[..k][..j] == ops[..j];
    assert ops'[..k - 1][j..] == ops'[j..][..k - 1 - j] && ops[..k][j + 1..] == ops[j + 1..][..k - 1 - j];
  }

  lemma MergedAbove(vs: seq<Word>, j: nat, v: Word, vs': seq<Word>, k: nat)
    requires Merged(vs, j, v, vs') && k <= j
    ensures Merged(vs[k..], j - k, v, vs'[k..])
  {
    assert vs'[k..][..j - k] == vs'[..j][k..] && vs[k..][..j - k] == vs[..j][k..];
    assert vs'[k..][j - k + 1..] == vs'[j + 1..] && vs[k..][j - k + 2..] == vs[j + 2..];
  }

  lemma MergedBelow(vs: seq<Word>, j: nat, v: Word, vs': seq<Word>, k: nat)
    requires Merged(vs, j, v, vs') && j + 1 < k <= |vs|
    ensures Merged(vs[..k], j, v, vs'[..k - 1])
  {
    assert vs'[..k - 1][..j] == vs'[..j] && vs[..k][..j] == vs[..j];
    assert vs'[..k - 1][j + 1..] == vs'[j + 1..][..k - 2 - j] && vs[..k][j + 2..] == vs[j + 2..][..k - 2 - j];
  }

  lemma TreeLeaf(vs: seq<Word>)
    requires |vs| == 1
    ensures TreeValue(vs, []) == vs[0]
  {
  }

  lemma DroppedAt(ops: seq<Op>, j: nat, ops': seq<Op>, i: int)
    requires Dropped(ops, j, ops') && 0 <= i < |ops'|
    ensures |ops| == |ops'| + 1 && ops'[i] == ops[if i < j then i else i + 1]
  {
    assert ops'[i] == if i < j then ops'[..j][i] else ops'[j..][i - j];
  }

  /** The root of the tree with a handle taken out. */
  lemma RootAfter(ops: seq<Op>, j: nat, ops': seq<Op>, k: int)
    requires Handle(ops, j) && |ops| > 1 && k == (if Root(ops) < j then Root(ops) else Root(ops) - 1)
    requires Dropped(ops, j, ops')
    ensures Root(ops) != j && 0 <= k < |ops'| && Root(ops') == k
  {
    hide Priority, Root;
    var r := Root(ops);
    HandleNotRoot(ops, j);
    DroppedAt(ops, j, ops', k);
    forall i | 0 <= i < |ops'|
      ensures Priority(ops'[k]) <= Priority(ops'[i]) && (k < i ==> Priority(ops'[k]) < Priority(ops'[i]))
    {
      DroppedAt(ops, j, ops', i);
      assert k < i ==> r < if i < j then i else i + 1;
    }
    RootUnique(ops', k);
  }

  lemma HandleNotRoot(ops: seq<Op>, j: nat)
    requires Handle(ops, j) && |ops| > 1
    ensures Root(ops) != j
  {
    hide Priority, Root;
    var r := Root(ops);
    if j > 0 {
      assert Priority(ops[r]) <= Priority(ops[j - 1]);
    } else {
      assert Priority(ops[1]) <= Priority(ops[0]);
    }
  }

  lemma RootUnique(ops: seq<Op>, k: nat)
    requires k < |ops|
    requires forall j :: 0 <= j < |ops| ==> Priority(ops[k]) <= Priority(ops[j])
    requires forall j :: k < j < |ops| ==> Priority(ops[k]) < Priority(ops[j])
    ensures Root(ops) == k
  {
  }

  /** What stays on the operator stack binds more loosely than the coming operator, so the stack stays increasing. */
  lemma {:induction false} ReducedIncreasing(ops: seq<Op>, op: Op)
    requires Increasing(ops)
    ensures Increasing(Reduced(ops, op) + [op])
    ensures Reduced(ops, op) <= ops
    decreases |ops|
  {
    hide Priority;
    if ops != [] && Priority(ops[|ops| - 1]) >= Priority(op) {
      ReducedIncreasing(ops[..|ops| - 1], op);
    }
  }

  // ----- pushes and pops -----

  lemma {:induction false} PushesRun(env: Env, k: nat, n: nat, st: St)
    requires k <= n <= |st.regs|
    ensures Exec(env, Pushes(k, n), st) == Some(st.(stack := st.stack + st.regs[k..n]))
    decreases n - k
  {
    if k == n {
      assert st.stack + st.regs[k..n] == st.stack;
    } else {
      var t := st.(stack := st.stack + [st.regs[k]]);
      PushesRun(env, k + 1, n, t);
      ExecOne(env, Ins(Push, k), st);
      ExecThen(env, [Ins(Push, k)], Pushes(k + 1, n), st, t, t.(stack := t.stack + t.regs[k + 1..n]));
      assert t.stack + t.regs[k + 1..n] == st.stack + st.regs[k..n];
    }
  }

  lemma PopOne(env: Env, d: nat, st: St, low: seq<Word>, x: Word)
    requires d < |st.regs| && st.stack == low + [x]
    ensures Exec(env, [Ins(Pop, d)], st) == Some(st.(stack := low, regs := st.regs[d := x]))
  {
    ExecOne(env, Ins(Pop, d), st);
    assert st.stack[..|st.stack| - 1] == low;
  }

  lemma {:induction false} PopsRun(env: Env, n: nat, st: St, base: seq<Word>, saved: seq<Word>)
    requires n == |saved| <= |st.regs| && st.stack == base + saved
    ensures Exec(env, Pops(n), st) == Some(st.(stack := base, regs := saved + st.regs[n..]))
    decreases n
  {
    hide ExecInstr;
    if n == 0 {
      assert base + saved == base;
      assert saved + st.regs[0..] == st.regs;
    } else {
      var fewer, x := saved[..n - 1], saved[n - 1];
      var t := st.(stack := base + fewer, regs := st.regs[n - 1 := x]);
      assert st.stack == base + fewer + [x];
      PopOne(env, n - 1, st, base + fewer, x);
      PopsRun(env, n - 1, t, base, fewer);
      PopsJoin(st.regs, fewer, x);
      assert fewer + [x] == saved;
      ExecThen(env, [Ins(Pop, n - 1)], Pops(n - 1), st, t, st.(stack := base, regs := saved + st.regs[n..]));
    }
  }

  lemma PopsJoin(regs: seq<Word>, fewer: seq<Word>, x: Word)
    requires |fewer| < |regs|
    ensures fewer + regs[|fewer| := x][|fewer|..] == fewer + [x] + regs[|fewer| + 1..]
  {
  }

  // ----- chains of operators -----

  lemma BinaryStep(env: Env, op: Op, d: nat, o: nat, st: St)
    requires IsBinary(op) && d < |st.regs| && o < |st.regs|
    ensures ExecInstr(env, Ins2(op, d, o), st) == Some(st.(regs := st.regs[d := Binary(op, st.regs[d], st.regs[o])]))
  {
    hide Binary;
  }

  /** The two topmost values are combined. */
  lemma ApplyRun(env: Env, op: Op, p: nat, st: St, base: seq<Word>, a: Word, b: Word) returns (t: St)
    requires IsBinary(op) && p + 1 < |st.regs| && st.stack == base + [a, b]
    ensures Exec(env, Apply(op, p), st) == Some(t)
    ensures Leaves(st.(stack := base), t, p, Binary(op, a, b), st.mem)
  {
    hide Binary, Exec, ExecInstr;
    var t1 := st.(stack := base + [a], regs := st.regs[p + 1 := b]);
    var t2 := t1.(stack := base, regs := t1.regs[p := a]);
    t := t2.(regs := t2.regs[p := Binary(op, a, b)]);
    assert base + [a, b] == base + [a] + [b];
    PopOne(env, p + 1, st, base + [a], b);
    PopOne(env, p, t1, base, a);
    BinaryStep(env, op, p, p + 1, t2);
    ExecOne(env, Ins2(op, p, p + 1), t2);
    ExecThen(env, [Ins(Pop, p + 1)], [Ins(Pop, p)], st, t1, t2);
    ExecThen(env, [Ins(Pop, p + 1)] + [Ins(Pop, p)], [Ins2(op, p, p + 1)], st, t2, t);
    assert [Ins(Pop, p + 1)] + [Ins(Pop, p)] + [Ins2(op, p, p + 1)] == Apply(op, p);
  }

  /** Pushing register p back. */
  lemma ThenPush(env: Env, code: seq<Instr>, p: nat, st: St, t: St) returns (u: St)
    requires Exec(env, code, st) == Some(t) && p < |t.regs|
    ensures Exec(env, code + [Ins(Push, p)], st) == Some(u) && u == t.(stack := t.stack + [t.regs[p]])
  {
    u := t.(stack := t.stack + [t.regs[p]]);
    ExecOne(env, Ins(Push, p), t);
    ExecThen(env, code, [Ins(Push, p)], st, t, u);
  }

  /** The topmost operator is a handle when the next operator does not bind tighter. */
  lemma ReduceTree(vals: seq<Word>, low: seq<Word>, a: Word, b: Word, ops: seq<Op>, init: seq<Op>, top: Op,
                   next: seq<Op>, ws: seq<Word>)
    requires ops == init + [top] && vals == low + [a, b] && |low| == |init| && |ws| == |next|
    requires Increasing(ops) && AllBinary(ops) && AllBinary(next) && IsBinary(top)
    requires next != [] ==> Priority(top) >= Priority(next[0])
    ensures AllBinary(ops + next) && AllBinary(init + next)
    ensures TreeValue(vals + ws, ops + next) == TreeValue(low + [Binary(top, a, b)] + ws, init + next)
  {
    hide Binary, TreeValue, Priority, Increasing, Handle, Dropped, Merged;
    var n := |init|;
    assert ops[n] == top;
    BinaryAppend(ops, next);
    HandleOnTop(ops, next);
    DroppedOnTop(ops, init, next);
    MergedOnTop(vals, low, a, b, Binary(top, a, b), ws);
    TreeStep(vals + ws, ops + next, n, low + [Binary(top, a, b)] + ws, init + next);
  }

  lemma DroppedOnTop(ops: seq<Op>, init: seq<Op>, next: seq<Op>)
    requires ops != [] && init == ops[..|ops| - 1]
    ensures Dropped(ops + next, |init|, init + next)
    ensures (ops + next)[|init|] == ops[|init|]
  {
    var n, all, all' := |init|, ops + next, init + next;
    assert all'[..n] == all[..n];
    assert all'[n..] == next == all[n + 1..];
  }

  lemma MergedOnTop(vals: seq<Word>, low: seq<Word>, a: Word, b: Word, v: Word, ws: seq<Word>)
    requires vals == low + [a, b]
    ensures Merged(vals + ws, |low|, v, low + [v] + ws)
    ensures (vals + ws)[|low|] == a && (vals + ws)[|low| + 1] == b
  {
    var n, vs, vs' := |low|, vals + ws, low + [v] + ws;
    assert vs'[..n] == low == vs[..n];
    assert vs'[n + 1..] == ws == vs[n + 2..];
  }

  lemma BinaryAppend(ops: seq<Op>, next: seq<Op>)
    requires AllBinary(ops) && AllBinary(next)
    ensures AllBinary(ops + next)
  {
  }

  lemma HandleOnTop(ops: seq<Op>, next: seq<Op>)
    requires Increasing(ops) && ops != []
    requires next != [] ==> Priority(ops[|ops| - 1]) >= Priority(next[0])
    ensures Handle(ops + next, |ops| - 1)
  {
    hide Priority;
    var n := |ops|;
    var all := ops + next;
    assert all[n - 1] == ops[n - 1] && (n > 1 ==> all[n - 2] == ops[n - 2]) && (next != [] ==> all[n] == next[0]);
  }

  /** The two topmost values are combined and the result is pushed back. */
  lemma ReduceOne(env: Env, op: Op, p: nat, st: St, base: seq<Word>, vals: seq<Word>, low: seq<Word>, a: Word, b: Word)
    returns (t: St)
    requires IsBinary(op) && p + 1 < |st.regs| && vals == low + [a, b] && st.stack == base + vals
    ensures Exec(env, Apply(op, p) + [Ins(Push, p)], st) == Some(t)
    ensures Keeps(st.(stack := base + (low + [Binary(op, a, b)])), t, p) && t.mem == st.mem
  {
    hide Binary, Exec, Apply;
    Regroup(base, low, [a, b]);
    var t1 := ApplyRun(env, op, p, st, base + low, a, b);
    t := ThenPush(env, Apply(op, p), p, st, t1);
    Regroup(base, low, [Binary(op, a, b)]);
  }

  lemma Regroup(a: seq<Word>, b: seq<Word>, c: seq<Word>)
    ensures a + (b + c) == (a + b) + c
  {
  }

  lemma InitOf(ops: seq<Op>)
    requires ops != [] && Increasing(ops) && AllBinary(ops)
    ensures var init, top := ops[..|ops| - 1], ops[|ops| - 1];
            Increasing(init) && AllBinary(init) && IsBinary(top) && ops == init + [top]
  {
  }

  /** Applying the operators that bind at least as tightly as the coming one changes no tree that continues with it. */
  lemma {:induction false} ReduceRun(env: Env, ops: seq<Op>, next: seq<Op>, p: nat, st: St, base: seq<Word>,
                                     vals: seq<Word>, ws: seq<Word>) returns (t: St, vals': seq<Word>)
    requires Increasing(ops) && AllBinary(ops) && AllBinary(next) && next != [] && p + 1 < |st.regs|
    requires |vals| == |ops| + 1 && st.stack == base + vals && |ws| == |next|
    ensures Exec(env, CReduce(ops, next[0], p), st) == Some(t)
    ensures |vals'| == |Reduced(ops, next[0])| + 1 && Keeps(st.(stack := base + vals'), t, p) && t.mem == st.mem
    ensures AllBinary(Reduced(ops, next[0])) && AllBinary(ops + next) && AllBinary(Reduced(ops, next[0]) + next)
    ensures TreeValue(vals + ws, ops + next) == TreeValue(vals' + ws, Reduced(ops, next[0]) + next)
    decreases |ops|
  {
    hide Binary, TreeValue, Priority, Exec, Apply, Increasing, AllBinary;
    var n := |ops|;
    if n > 0 && Priority(ops[n - 1]) >= Priority(next[0]) {
      InitOf(ops);
      var top, init := ops[n - 1], ops[..n - 1];
      var low, a, b := vals[..n - 1], vals[n - 1], vals[n];
      assert vals == low + [a, b];
      var t1 := ReduceOne(env, top, p, st, base, vals, low, a, b);
      var vals1 := low + [Binary(top, a, b)];
      t, vals' := ReduceRun(env, init, next, p, t1, base, vals1, ws);
      ExecThen(env, Apply(top, p) + [Ins(Push, p)], CReduce(init, next[0], p), st, t1, t);
      ReduceTree(vals, low, a, b, ops, init, top, next, ws);
    } else {
      t, vals' := st, vals;
      ExecNone(env, st);
      BinaryAppend(ops, next);
    }
  }

  /** Unwinding applies all operators left, from the right. */
  lemma {:induction false} UnwindRun(env: Env, ops: seq<Op>, p: nat, st: St, base: seq<Word>, vals: seq<Word>)
    returns (t: St)
    requires Increasing(ops) && AllBinary(ops) && ops != [] && p + 1 < |st.regs|
    requires |vals| == |ops| + 1 && st.stack == base + vals
    ensures Exec(env, CUnwind(ops, p), st) == Some(t)
    ensures Leaves(st.(stack := base), t, p, TreeValue(vals, ops), st.mem)
    decreases |ops|
  {
    hide Binary, TreeValue, Priority, Exec, Apply, Increasing;
    InitOf(ops);
    var n := |ops|;
    var top, init := ops[n - 1], ops[..n - 1];
    var low, a, b := vals[..n - 1], vals[n - 1], vals[n];
    assert vals == low + [a, b];
    var vals1 := low + [Binary(top, a, b)];
    ReduceTree(vals, low, a, b, ops, init, top, [], []);
    assert vals + [] == vals && vals1 + [] == vals1 && ops + [] == ops && init + [] == init;
    if n == 1 {
      assert st.stack == base + [a, b];
      t := ApplyRun(env, top, p, st, base, a, b);
      TreeLeaf(vals1);
    } else {
      var t1 := ReduceOne(env, top, p, st, base, vals, low, a, b);
      t := UnwindRun(env, init, p, t1, base, vals1);
      ExecThen(env, Apply(top, p) + [Ins(Push, p)], CUnwind(init, p), st, t1, t);
    }
  }

  lemma RegsOfChain(ops: seq<Op>, rest: seq<Term>, p: nat, n: nat)
    requires rest != [] && RegsBelow(CChain(ops, rest, p), n)
    ensures RegsBelow(CTerm(rest[0], p), n)
    ensures RegsBelow(CChain(Reduced(ops, rest[0].op) + [rest[0].op], rest[1..], p), n)
  {
    hide CTerm, CReduce, RegsBelow;
    var op := rest[0].op;
    var a, b, d := CReduce(ops, op, p), CTerm(rest[0], p), [Ins(Push, p)];
    var c := CChain(Reduced(ops, op) + [op], rest[1..], p);
    assert CChain(ops, rest, p) == a + b + d + c;
    RegsSplit(a + b + d, c, n);
    RegsSplit(a + b, d, n);
    RegsSplit(a, b, n);
  }

  // ----- composition -----

  /** Running a, then b that reads what a left. */
  lemma Sequence(env: Env, a: seq<Instr>, b: seq<Instr>, st: St, t: St, u: St, p: nat, q: nat)
    requires Exec(env, a, st) == Some(t) && Exec(env, b, t) == Some(u)
    requires Keeps(st, t, p) && Keeps(t, u, q) && p <= q
    ensures Exec(env, a + b, st) == Some(u) && Keeps(st, u, p)
  {
    hide Exec;
    ExecThen(env, a, b, st, t, u);
  }

  /** One more instruction that writes register p only. */
  lemma ThenWrite(env: Env, code: seq<Instr>, ins: Instr, st: St, t: St, p: nat, d: nat, v: Word) returns (u: St)
    requires Exec(env, code, st) == Some(t) && Keeps(st, t, p) && p <= d < |t.regs|
    requires ExecInstr(env, ins, t) == Some(t.(regs := t.regs[d := v]))
    ensures u == t.(regs := t.regs[d := v])
    ensures Exec(env, code + [ins], st) == Some(u) && Keeps(st, u, p)
  {
    hide Exec, ExecInstr;
    u := t.(regs := t.regs[d := v]);
    ExecOne(env, ins, t);
    ExecThen(env, code, [ins], st, t, u);
  }

  lemma NegatedRun(env: Env, code: seq<Instr>, neg: bool, p: nat, st: St, t: St, v: Word, mem: Mem) returns (u: St)
    requires Exec(env, code, st) == Some(t) && Leaves(st, t, p, v, mem)
    ensures Exec(env, code + Negated(neg, p), st) == Some(u) && Leaves(st, u, p, NegatedValue(neg, v), mem)
  {
    hide Exec, NegateWord;
    if neg {
      u := ThenWrite(env, code, Ins(Negate, p), st, t, p, p, NegateWord(v));
    } else {
      u := t;
      assert code + [] == code;
    }
  }

  /** Advancing the address in register p by register p+1 elements. */
  lemma ScaledRun(env: Env, code: seq<Instr>, p: nat, size: int, st: St, t: St, a: Word, i: Word) returns (u: St)
    requires Exec(env, code, st) == Some(t) && Keeps(st, t, p) && RegsBelow(Scaled(p, size), |st.regs|)
    requires p + 1 < |t.regs| && t.regs[p] == a && t.regs[p + 1] == i
    ensures Exec(env, code + Scaled(p, size), st) == Some(u) && Leaves(st, u, p, Advance(a, i, size), t.mem)
  {
    hide Exec, Binary;
    var add := Ins2(Add, p, p + 1);
    if size == 1 {
      u := ThenWrite(env, code, add, st, t, p, p, Binary(Add, a, i));
      assert [] + [add] == [add];
    } else {
      var c, m := Const(p + 2, size), Ins2(Mul, p + 1, p + 2);
      assert RegOk(Scaled(p, size)[0], |st.regs|);
      var t1 := ThenWrite(env, code, c, st, t, p, p + 2, Wrap(size));
      var t2 := ThenWrite(env, code + [c], m, st, t1, p, p + 1, Binary(Mul, i, Wrap(size)));
      u := ThenWrite(env, code + [c] + [m], add, st, t2, p, p, Advance(a, i, size));
      assert code + [c] + [m] + [add] == code + ([c, m] + [add]);
    }
  }

  // ----- increments -----

  function ChangeByOne(op: Op, p: nat, size: int): seq<Instr> {
    [Const(p + 2, 1), Ins2(op, p + 1, p + 2), Write(p + 1, p, size)]
  }

  /** Register p+1 changed by one and stored at the address in register p. */
  lemma ChangeRun(env: Env, op: Op, p: nat, size: int, st: St, a: Word, v: Word, m: Mem) returns (t: St)
    requires p + 2 < |st.regs| && st.regs[p] == a && st.regs[p + 1] == v && IsBinary(op)
    requires WriteMem(env, st.mem, a, size, Binary(op, v, 1)) == Some(m)
    ensures Exec(env, ChangeByOne(op, p, size), st) == Some(t)
    ensures Keeps(st, t, p + 1) && t.mem == m
  {
    hide Exec, ExecInstr, Binary, WriteMem, Keeps;
    var one, change, store := Const(p + 2, 1), Ins2(op, p + 1, p + 2), Write(p + 1, p, size);
    var t1 := st.(regs := st.regs[p + 2 := 1]);
    ConstStep(env, p + 2, 1, st);
    ExecOne(env, one, st);
    BinaryStep(env, op, p + 1, p + 2, t1);
    var t2 := t1.(regs := t1.regs[p + 1 := Binary(op, v, 1)]);
    ExecOne(env, change, t1);
    t := t2.(mem := m);
    WriteStep(env, p + 1, p, size, t2, m);
    ExecOne(env, store, t2);
    ExecThen(env, [one], [change], st, t1, t2);
    ExecThen(env, [one] + [change], [store], st, t2, t);
    assert [one] + [change] + [store] == ChangeByOne(op, p, size);
    assert Keeps(st, t, p + 1) by { KeepsWrites(st, t, p); }
  }

  lemma ConstStep(env: Env, d: nat, v: int, st: St)
    requires d < |st.regs|
    ensures ExecInstr(env, Const(d, v), st) == Some(st.(regs := st.regs[d := Wrap(v)]))
  {
  }

  /** Writing register d through register o. */
  lemma WriteStep(env: Env, d: nat, o: nat, size: int, st: St, m: Mem)
    requires d < |st.regs| && o < |st.regs| && WriteMem(env, st.mem, st.regs[o], size, st.regs[d]) == Some(m)
    ensures ExecInstr(env, Write(d, o, size), st) == Some(st.(mem := m))
  {
    hide WriteMem;
  }

  lemma KeepsWrites(st: St, t: St, p: nat)
    requires |t.regs| == |st.regs| && t.stack == st.stack && t.entered == st.entered && p + 2 < |st.regs|
    requires t.regs[..p + 1] == st.regs[..p + 1]
    ensures Keeps(st, t, p + 1)
  {
    forall k | 0 <= k < p + 1 ensures t.regs[k] == st.regs[k] {
      assert t.regs[..p + 1][k] == st.regs[..p + 1][k];
    }
  }

  /** Reading through register o into register d. */
  lemma ReadStep(env: Env, d: nat, o: nat, size: int, st: St, v: Word)
    requires d < |st.regs| && o < |st.regs| && ReadMem(env, st.mem, st.regs[o], size) == Some(v)
    ensures ExecInstr(env, Read(d, o, size), st) == Some(st.(regs := st.regs[d := v]))
  {
    hide ReadMem;
  }

  lemma PopStep(env: Env, d: nat, st: St, low: seq<Word>, v: Word)
    requires d < |st.regs| && st.stack == low + [v]
    ensures ExecInstr(env, Ins(Pop, d), st) == Some(st.(stack := low, regs := st.regs[d := v]))
  {
  }

  lemma PrefixRun(env: Env, op: BinaryOp, p: nat, size: int, st: St, a: Word, r: Result) returns (t: St)
    requires p + 2 < |st.regs| && st.regs[p] == a && Bump(env, op, a, size, 1, st.mem) == Some(r)
    ensures Exec(env, CPrefix(Some(op), p, size), st) == Some(t) && Leaves(st, t, p, a, r.mem)
  {
    hide Exec, ExecInstr, Binary, WriteMem, ReadMem, ChangeByOne, CPrefix;
    ExecNone(env, st);
    ReadStep(env, p + 1, p, size, st, r.v);
    var t1 := ThenWrite(env, [], Read(p + 1, p, size), st, st, p, p + 1, r.v);
    t := ChangeRun(env, op, p, size, t1, a, r.v, r.mem);
    ExecThen(env, [] + [Read(p + 1, p, size)], ChangeByOne(op, p, size), st, t1, t);
    PrefixCode(op, p, size);
  }

  lemma PrefixCode(op: BinaryOp, p: nat, size: int)
    ensures [] + [Read(p + 1, p, size)] + ChangeByOne(op, p, size) == CPrefix(Some(op), p, size)
  {
  }

  /** The old value is pushed behind the code that reads it. */
  lemma ReadAndPush(env: Env, p: nat, size: int, st: St, v: Word) returns (t: St)
    requires p + 2 < |st.regs| && ReadMem(env, st.mem, st.regs[p], size) == Some(v)
    ensures Exec(env, [Read(p + 1, p, size), Ins(Push, p + 1)], st) == Some(t)
    ensures t == st.(regs := st.regs[p + 1 := v], stack := st.stack + [v])
  {
    hide Exec, ExecInstr, ReadMem;
    var read, push := Read(p + 1, p, size), Ins(Push, p + 1);
    var t1 := st.(regs := st.regs[p + 1 := v]);
    ReadStep(env, p + 1, p, size, st, v);
    ExecOne(env, read, st);
    t := t1.(stack := t1.stack + [v]);
    PushStep(env, p + 1, t1);
    ExecOne(env, push, t1);
    ExecThen(env, [read], [push], st, t1, t);
    assert [read] + [push] == [read, push];
  }

  lemma PushStep(env: Env, d: nat, st: St)
    requires d < |st.regs|
    ensures ExecInstr(env, Ins(Push, d), st) == Some(st.(stack := st.stack + [st.regs[d]]))
  {
  }

  lemma PostfixRun(env: Env, op: BinaryOp, p: nat, size: int, st: St, a: Word, r: Result) returns (t: St)
    requires p + 2 < |st.regs| && st.regs[p] == a && Bump(env, op, a, size, 1, st.mem) == Some(r)
    ensures Exec(env, CPostfix(op, p, size), st) == Some(t) && Leaves(st, t, p, r.v, r.mem)
  {
    hide Exec, ExecInstr, Binary, WriteMem, ReadMem;
    var front, change := [Read(p + 1, p, size), Ins(Push, p + 1)], ChangeByOne(op, p, size);
    var t1 := ReadAndPush(env, p, size, st, r.v);
    var t2 := ChangeRun(env, op, p, size, t1, a, r.v, r.mem);
    ExecThen(env, front, change, st, t1, t2);
    t := t2.(stack := st.stack, regs := t2.regs[p := r.v]);
    PopStep(env, p, t2, st.stack, r.v);
    ExecOne(env, Ins(Pop, p), t2);
    ExecThen(env, front + change, [Ins(Pop, p)], st, t2, t);
    assert front + change + [Ins(Pop, p)] == CPostfix(op, p, size);
  }

  /** The code behind the prefix: an update with the old value left, or a plain read. */
  function BackCode(suffix: Suffix, p: nat, size: int): seq<Instr> {
    if suffix.PostIncrement? then CPostfix(Add, p, size)
    else if suffix.PostDecrement? then CPostfix(Sub, p, size) else [Read(p, p, size)]
  }

  ghost function BackValue(env: Env, suffix: Suffix, a: Word, size: int, mem: Mem): Option<Result> {
    if suffix.PostIncrement? then Bump(env, Add, a, size, 1, mem)
    else if suffix.PostDecrement? then Bump(env, Sub, a, size, 1, mem)
    else LoadResult(env, a, size, mem)
  }

  ghost function FrontValue(env: Env, prefix: Option<BinaryOp>, a: Word, size: int, mem: Mem): Option<Result> {
    match prefix case None => Some(Result(0, mem)) case Some(op) => Bump(env, op, a, size, 1, mem)
  }

  lemma BackRun(env: Env, suffix: Suffix, p: nat, size: int, t1: St, a: Word, r: Result)
    returns (t: St)
    requires !suffix.PlusOperand? && p < |t1.regs| && t1.regs[p] == a && RegsBelow(BackCode(suffix, p, size), |t1.regs|)
    requires BackValue(env, suffix, a, size, t1.mem) == Some(r)
    ensures Exec(env, BackCode(suffix, p, size), t1) == Some(t) && Leaves(t1, t, p, r.v, r.mem)
  {
    hide Exec, Bump, ReadMem, WriteMem;
    var back := BackCode(suffix, p, size);
    if suffix.PostIncrement? || suffix.PostDecrement? {
      assert RegOk(back[2], |t1.regs|);
      t := PostfixRun(env, if suffix.PostIncrement? then Add else Sub, p, size, t1, a, r);
    } else {
      ExecNone(env, t1);
      t := ThenWrite(env, [], Read(p, p, size), t1, t1, p, p, r.v);
      assert [] + [Read(p, p, size)] == back;
    }
  }

  lemma FrontRun(env: Env, prefix: Option<BinaryOp>, p: nat, size: int, st: St, a: Word, b: Result)
    returns (t: St)
    requires p < |st.regs| && st.regs[p] == a && RegsBelow(CPrefix(prefix, p, size), |st.regs|)
    requires FrontValue(env, prefix, a, size, st.mem) == Some(b)
    ensures Exec(env, CPrefix(prefix, p, size), st) == Some(t) && Leaves(st, t, p, a, b.mem)
  {
    hide Exec, Bump, ReadMem, WriteMem;
    if prefix.Some? {
      assert RegOk(CPrefix(prefix, p, size)[1], |st.regs|);
      t := PrefixRun(env, prefix.value, p, size, st, a, b);
    } else {
      t := st;
      ExecNone(env, st);
    }
  }

  lemma SuffixParts(env: Env, lv: LValue, prefix: Option<BinaryOp>, suffix: Suffix, p: nat, a: Word, mem: Mem)
    requires !suffix.PlusOperand? && !env.typed && IsReference(lv)
    ensures CSuffix(lv, prefix, suffix, p) == CPrefix(prefix, p, LvSize(lv)) + BackCode(suffix, p, LvSize(lv))
    ensures EvalSuffix(env, lv, prefix, suffix, a, mem)
         == match FrontValue(env, prefix, a, LvSize(lv), mem)
            case None => None
            case Some(b) => BackValue(env, suffix, a, LvSize(lv), b.mem)
  {
    hide CPrefix, CPostfix, Bump, LoadResult;
  }

  /** What the code does with an lvalue's address when no pointer arithmetic follows. */
  lemma PlainSuffixRun(env: Env, lv: LValue, prefix: Option<BinaryOp>, suffix: Suffix, p: nat, st: St, a: Word,
                       r: Result)
    returns (t: St)
    requires !suffix.PlusOperand? && p < |st.regs| && st.regs[p] == a && !env.typed
    requires RegsBelow(CSuffix(lv, prefix, suffix, p), |st.regs|)
    requires EvalSuffix(env, lv, prefix, suffix, a, st.mem) == Some(r)
    ensures Exec(env, CSuffix(lv, prefix, suffix, p), st) == Some(t) && Leaves(st, t, p, r.v, r.mem)
  {
    hide Exec, Bump, ReadMem, WriteMem;
    if !IsReference(lv) {
      t := st;
      ExecNone(env, st);
    } else {
      hide CSuffix, EvalSuffix, CPrefix, BackCode, BackValue, FrontValue;
      var size := LvSize(lv);
      SuffixParts(env, lv, prefix, suffix, p, a, st.mem);
      var front, back := CPrefix(prefix, p, size), BackCode(suffix, p, size);
      RegsSplit(front, back, |st.regs|);
      var b := FrontValue(env, prefix, a, size, st.mem).value;
      var t1 := FrontRun(env, prefix, p, size, st, a, b);
      t := BackRun(env, suffix, p, size, t1, a, r);
      ExecThen(env, front, back, st, t1, t);
    }
  }

  // ----- the tree and the levels -----

  lemma StepOn(fv: seq<Word>, fo: seq<Op>, c: Chain)
    requires |fv| == |fo| && Valid(c) && c.ops != [] && AllBinary(fo + c.ops) && Handle(fo + c.ops, |fo|)
    ensures AllBinary(fo + c.ops[1..])
    ensures TreeValue(fv + c.vs, fo + c.ops)
         == TreeValue(fv + ([Binary(c.ops[0], c.vs[0], c.vs[1])] + c.vs[2..]), fo + c.ops[1..])
  {
    hide Binary, TreeValue, Priority, Handle;
    var v := Binary(c.ops[0], c.vs[0], c.vs[1]);
    var vs, ops := fv + c.vs, fo + c.ops;
    var vs', ops' := fv + ([v] + c.vs[2..]), fo + c.ops[1..];
    var j := |fo|;
    assert vs[j] == c.vs[0] && vs[j + 1] == c.vs[1] && ops[j] == c.ops[0];
    forall k | 0 <= k < |ops'| ensures IsBinary(ops'[k]) {
      assert k >= j ==> ops'[k] == ops[k + 1];
      assert k < j ==> ops'[k] == ops[k];
    }
    assert vs'[..j] == vs[..j] && vs'[j] == v && vs'[j + 1..] == vs[j + 2..];
    assert ops'[..j] == ops[..j] && ops'[j..] == ops[j + 1..];
    TreeStep(vs, ops, j, vs', ops');
  }

  /** Where the level with priority p is applied behind operators that bind less tightly. */
  predicate AtLevel(p: int, fv: seq<Word>, fo: seq<Op>, c: Chain) {
    && |fv| == |fo| && Valid(c) && AllBinary(fo)
    && (forall k :: 0 <= k < |fo| ==> Priority(fo[k]) < p) && (forall k :: 0 <= k < |c.ops| ==> Priority(c.ops[k]) <= p)
  }

  lemma HandleThere(p: int, fv: seq<Word>, fo: seq<Op>, c: Chain)
    requires AtLevel(p, fv, fo, c) && c.ops != [] && Priority(c.ops[0]) == p
    ensures AllBinary(fo + c.ops) && Handle(fo + c.ops, |fo|)
    ensures AtLevel(p, fv, fo, Chain([Binary(c.ops[0], c.vs[0], c.vs[1])] + c.vs[2..], c.ops[1..]))
  {
    hide Priority, Binary;
    var ops, j := fo + c.ops, |fo|;
    assert ops[j] == c.ops[0];
    if j > 0 { assert ops[j - 1] == fo[j - 1]; }
    if j + 1 < |ops| { assert ops[j + 1] == c.ops[1]; }
  }

  lemma PassedBy(p: int, fv: seq<Word>, fo: seq<Op>, c: Chain)
    requires AtLevel(p, fv, fo, c) && c.ops != [] && Priority(c.ops[0]) != p
    ensures AtLevel(p, fv + [c.vs[0]], fo + [c.ops[0]], Chain(c.vs[1..], c.ops[1..]))
  {
    hide Priority;
  }

  /** It keeps the value of the whole tree. */
  lemma {:induction false} AppliedKeeps(level: Op -> bool, p: int, fv: seq<Word>, fo: seq<Op>, c: Chain)
    requires AtLevel(p, fv, fo, c)
    requires forall op: Op :: IsBinary(op) ==> (level(op) <==> Priority(op) == p)
    ensures var r := Applied(level, c);
            AllBinary(fo + c.ops) && AllBinary(fo + r.ops)
            && TreeValue(fv + c.vs, fo + c.ops) == TreeValue(fv + r.vs, fo + r.ops)
    decreases |c.ops|
  {
    hide Binary, TreeValue, Priority, AtLevel, AllBinary, IsBinary;
    if c.ops == [] {
      LevelBinary(p, fv, fo, c);
    } else if level(c.ops[0]) {
      LevelBinary(p, fv, fo, c);
      HandleThere(p, fv, fo, c);
      StepOn(fv, fo, c);
      AppliedKeeps(level, p, fv, fo, Chain([Binary(c.ops[0], c.vs[0], c.vs[1])] + c.vs[2..], c.ops[1..]));
    } else {
      LevelBinary(p, fv, fo, c);
      PassedBy(p, fv, fo, c);
      var rest := Chain(c.vs[1..], c.ops[1..]);
      AppliedKeeps(level, p, fv + [c.vs[0]], fo + [c.ops[0]], rest);
      ChainShift(fv, fo, c.vs, c.ops);
      ChainShift(fv, fo, Applied(level, c).vs, Applied(level, c).ops);
    }
  }

  lemma LevelBinary(p: int, fv: seq<Word>, fo: seq<Op>, c: Chain)
    requires AtLevel(p, fv, fo, c)
    ensures |fv| == |fo| && Valid(c) && AllBinary(fo + c.ops) && (c.ops != [] ==> IsBinary(c.ops[0]))
  {
    hide Priority;
  }

  lemma ChainShift(fv: seq<Word>, fo: seq<Op>, vs: seq<Word>, ops: seq<Op>)
    requires vs != [] && ops != []
    ensures fv + [vs[0]] + vs[1..] == fv + vs && fo + [ops[0]] + ops[1..] == fo + ops
  {
  }

  lemma LevelKeeps(level: Op -> bool, p: int, c: Chain)
    requires Valid(c) && forall k :: 0 <= k < |c.ops| ==> Priority(c.ops[k]) <= p
    requires forall op: Op :: IsBinary(op) ==> (level(op) <==> Priority(op) == p)
    ensures TreeValue(c.vs, c.ops) == TreeValue(Applied(level, c).vs, Applied(level, c).ops)
    ensures forall k :: 0 <= k < |Applied(level, c).ops| ==> Priority(Applied(level, c).ops[k]) < p
  {
    hide Binary, TreeValue, Priority;
    var r := Applied(level, c);
    AppliedKeeps(level, p, [], [], c);
    assert [] + c.vs == c.vs && [] + c.ops == c.ops && [] + r.vs == r.vs && [] + r.ops == r.ops;
  }

  /** The tree whose root is the rightmost operator of least priority has the value taken level by level. */
  lemma TreeIsLevels(vs: seq<Word>, ops: seq<Op>)
    requires |vs| == |ops| + 1 && AllBinary(ops)
    ensures TreeValue(vs, ops) == LevelValue(vs, ops)
  {
    hide Binary, TreeValue, Applied;
    var c := Chain(vs, ops);
    LevelKeeps(IsProduct, 1, c);
    LevelKeeps(IsSum, 0, Products(c));
    LevelKeeps(IsRelation, -1, Sums(c));
    LevelKeeps(IsConnective, -2, Relations(c));
    LevelsFinish(vs, ops);
    TreeLeaf([LevelValue(vs, ops)]);
  }

  /** So an expression means its tree. */
  lemma ExprTree(env: Env, e: Expr, mem: Mem)
    requires EvalExpr(env, e, mem).Some?
    ensures var r := EvalOperand(env, e.first, mem);
            && r.Some? && EvalTerms(env, e.rest, r.value.mem).Some?
            && var rs := EvalTerms(env, e.rest, r.value.mem).value;
            && |rs.vs| == |e.rest|
            && EvalExpr(env, e, mem) == Some(Result(TreeValue([r.value.v] + rs.vs, Ops(e.rest)), rs.mem))
  {
    hide TreeValue, LevelValue;
    var r := EvalOperand(env, e.first, mem).value;
    var rs := EvalTerms(env, e.rest, r.mem).value;
    OpsBinary(e.rest);
    TreeIsLevels([r.v] + rs.vs, Ops(e.rest));
  }

  // ----- the theorem, by recursion on what was recognised -----

  lemma {:induction false} ExprRun(env: Env, e: Expr, p: nat, st: St, r: Result) returns (t: St)
    requires RegsBelow(CExpr(e, p), |st.regs|) && |st.regs| >= MAX_PARAMS && !env.typed
    requires EvalExpr(env, e, st.mem) == Some(r)
    ensures Exec(env, CExpr(e, p), st) == Some(t) && Leaves(st, t, p, r.v, r.mem)
    decreases e, 1
  {
    hide Exec, RegsBelow, TreeValue, LevelValue, Leaves, Keeps, ExecInstr, COperand, CTerm;
    ExprTree(env, e, st.mem);
    var n := |st.regs|;
    var a := EvalOperand(env, e.first, st.mem).value;
    if |e.rest| == 0 {
      t := OperandRun(env, e.first, p, st, a);
      TreeLeaf([a.v]);
      assert [a.v] + [] == [a.v];
    } else {
      t := ChainedRun(env, e, p, st, a, r);
    }
  }

  ghost predicate Gives(env: Env, code: seq<Instr>, p: nat, st: St, r: Result) {
    exists t :: Exec(env, code, st) == Some(t) && Leaves(st, t, p, r.v, r.mem)
  }

  /** Wherever the expression has a value, the code leaves it in register p. */
  ghost predicate Computes(code: seq<Instr>, e: Expr, p: nat) {
    forall env: Env, st: St, r: Result ::
      !env.typed && |st.regs| >= MAX_PARAMS && RegsBelow(code, |st.regs|) && EvalExpr(env, e, st.mem) == Some(r) ==>
        Gives(env, code, p, st, r)
  }

  lemma CodeComputes(e: Expr, p: nat)
    ensures Computes(CExpr(e, p), e, p)
  {
    hide Exec, RegsBelow, CExpr, EvalExpr, Leaves;
    forall env: Env, st: St, r: Result |
      !env.typed && |st.regs| >= MAX_PARAMS && RegsBelow(CExpr(e, p), |st.regs|) && EvalExpr(env, e, st.mem) == Some(r)
      ensures Gives(env, CExpr(e, p), p, st, r)
    {
      var t := ExprRun(env, e, p, st, r);
    }
  }

  /** Code appended behind other code. */
  lemma AppendedComputes(before: seq<Instr>, after: seq<Instr>, e: Expr, p: nat)
    requires after == before + CExpr(e, p)
    ensures Computes(after[|before|..], e, p)
  {
    hide Computes, CExpr;
    assert after[|before|..] == CExpr(e, p);
    CodeComputes(e, p);
  }

  /** A binary operation on registers p and p+1. */
  lemma ThenBinary(env: Env, code: seq<Instr>, op: Op, p: nat, st: St, t: St, a: Word, b: Word) returns (u: St)
    requires Exec(env, code, st) == Some(t) && Keeps(st, t, p) && IsBinary(op)
    requires p + 1 < |t.regs| && t.regs[p] == a && t.regs[p + 1] == b
    ensures Exec(env, code + [Ins2(op, p, p + 1)], st) == Some(u) && Leaves(st, u, p, Binary(op, a, b), t.mem)
  {
    hide Exec, Binary;
    u := ThenWrite(env, code, Ins2(op, p, p + 1), st, t, p, p, Binary(op, a, b));
  }

  /** Two operands, or more. */
  lemma {:induction false} ChainedRun(env: Env, e: Expr, p: nat, st: St, a: Result, r: Result) returns (t: St)
    requires e.rest != [] && RegsBelow(CExpr(e, p), |st.regs|) && |st.regs| >= MAX_PARAMS && !env.typed
    requires EvalOperand(env, e.first, st.mem) == Some(a) && EvalExpr(env, e, st.mem) == Some(r)
    ensures Exec(env, CExpr(e, p), st) == Some(t) && Leaves(st, t, p, r.v, r.mem)
    decreases e, 0
  {
    hide Exec, RegsBelow, TreeValue, ExecInstr, COperand, CTerm, Binary, CChain, EvalOperand, LevelValue;
    ExprTree(env, e, st.mem);
    var n, first := |st.regs|, e.rest[0];
    var ca, cb := COperand(e.first, p), CTerm(first, p + 1);
    RegsOfTwo(e, p, n);
    var t1 := OperandRun(env, e.first, p, st, a);
    var b := EvalTerm(env, first, a.mem).value;
    var t2 := TermRun(env, first, p + 1, t1, b);
    Sequence(env, ca, cb, st, t1, t2, p, p + 1);
    assert IsBinary(first.op);
    if |e.rest| == 1 {
      assert r.v == Binary(first.op, a.v, b.v) && r.mem == b.mem by { OneTerm(env, e, a, b, r); }
      t := ThenBinary(env, ca + cb, first.op, p, st, t2, a.v, b.v);
    } else {
      var rs := EvalTerms(env, e.rest[1..], b.mem).value;
      t := MoreRun(env, e, p, st, t2, a.v, b, rs);
      assert r.v == TreeValue([a.v, b.v] + rs.vs, [first.op] + Ops(e.rest[1..])) && r.mem == rs.mem by {
        MoreTerms(env, e, a, b, rs, r);
      }
    }
  }

  lemma OneTerm(env: Env, e: Expr, a: Result, b: Result, r: Result)
    requires |e.rest| == 1
    requires EvalTerm(env, e.rest[0], a.mem) == Some(b)
    requires EvalTerms(env, e.rest, a.mem).Some? && |EvalTerms(env, e.rest, a.mem).value.vs| == 1
    requires r == Result(TreeValue([a.v] + EvalTerms(env, e.rest, a.mem).value.vs, Ops(e.rest)),
                         EvalTerms(env, e.rest, a.mem).value.mem)
    ensures r.v == Binary(e.rest[0].op, a.v, b.v) && r.mem == b.mem
  {
    hide TreeValue, Binary, EvalTerm;
    TreePair(a.v, b.v, e.rest[0].op);
    assert [a.v] + ([b.v] + []) == [a.v, b.v];
    assert Ops(e.rest) == [e.rest[0].op];
  }

  lemma MoreTerms(env: Env, e: Expr, a: Result, b: Result, rs: Results, r: Result)
    requires |e.rest| > 1
    requires EvalTerm(env, e.rest[0], a.mem) == Some(b) && EvalTerms(env, e.rest[1..], b.mem) == Some(rs)
    requires EvalTerms(env, e.rest, a.mem).Some? && |EvalTerms(env, e.rest, a.mem).value.vs| == |e.rest|
    requires r == Result(TreeValue([a.v] + EvalTerms(env, e.rest, a.mem).value.vs, Ops(e.rest)),
                         EvalTerms(env, e.rest, a.mem).value.mem)
    ensures |rs.vs| == |e.rest| - 1 && AllBinary([e.rest[0].op] + Ops(e.rest[1..]))
    ensures r.v == TreeValue([a.v, b.v] + rs.vs, [e.rest[0].op] + Ops(e.rest[1..])) && r.mem == rs.mem
  {
    hide TreeValue, Binary, EvalTerm;
    var vs := EvalTerms(env, e.rest, a.mem).value.vs;
    OpsBinary(e.rest);
    assert vs == [b.v] + rs.vs;
    assert [a.v] + vs == [a.v, b.v] + rs.vs;
    assert Ops(e.rest) == [e.rest[0].op] + Ops(e.rest[1..]);
  }

  /** The first two values are pushed and the chain goes on. */
  lemma {:induction false} MoreRun(env: Env, e: Expr, p: nat, st: St, t2: St, a: Word, b: Result, rs: Results)
    returns (t: St)
    requires |e.rest| > 1 && RegsBelow(CExpr(e, p), |st.regs|) && |st.regs| >= MAX_PARAMS && !env.typed
    requires Exec(env, COperand(e.first, p) + CTerm(e.rest[0], p + 1), st) == Some(t2)
    requires Keeps(st, t2, p) && p + 1 < |t2.regs| && t2.regs[p] == a && t2.regs[p + 1] == b.v && t2.mem == b.mem
    requires EvalTerms(env, e.rest[1..], b.mem) == Some(rs)
    ensures |rs.vs| == |e.rest| - 1 && AllBinary([e.rest[0].op] + Ops(e.rest[1..]))
    ensures Exec(env, CExpr(e, p), st) == Some(t)
    ensures Leaves(st, t, p, TreeValue([a, b.v] + rs.vs, [e.rest[0].op] + Ops(e.rest[1..])), rs.mem)
    decreases e.rest, 1
  {
    hide Exec, RegsBelow, TreeValue, ExecInstr, COperand, CTerm, Binary, CChain, EvalTerm, EvalTerms;
    var first, rest := e.rest[0], e.rest[1..];
    var two := COperand(e.first, p) + CTerm(first, p + 1);
    RegsOfTwo(e, p, |st.regs|);
    EvalTermsLength(env, rest, b.mem);
    var t3 := ThenPush(env, two, p, st, t2);
    var t4 := ThenPush(env, two + [Ins(Push, p)], p + 1, st, t3);
    var vals := [a, b.v];
    assert t4.stack == st.stack + vals;
    t := ChainRun(env, [first.op], rest, p, t4, st.stack, vals, rs);
    var pushes := [Ins(Push, p), Ins(Push, p + 1)];
    assert two + [Ins(Push, p)] + [Ins(Push, p + 1)] == two + pushes;
    ExecThen(env, two + pushes, CChain([first.op], rest, p), st, t4, t);
  }

  lemma TreePair(a: Word, b: Word, op: Op)
    requires IsBinary(op)
    ensures TreeValue([a, b], [op]) == Binary(op, a, b)
  {
    hide Binary;
    assert Binary(op, a, b) == TreeValue([Binary(op, a, b)], []) by { TreeLeaf([Binary(op, a, b)]); }
    TreeSingle([a, b], [op], [Binary(op, a, b)], []);
  }

  lemma RegsOfTwo(e: Expr, p: nat, n: nat)
    requires e.rest != [] && RegsBelow(CExpr(e, p), n)
    ensures RegsBelow(COperand(e.first, p), n) && RegsBelow(CTerm(e.rest[0], p + 1), n)
    ensures |e.rest| > 1 ==> RegsBelow(CChain([e.rest[0].op], e.rest[1..], p), n)
  {
    hide RegsBelow, COperand, CTerm, CChain;
    var two := COperand(e.first, p) + CTerm(e.rest[0], p + 1);
    if |e.rest| == 1 {
      RegsSplit(two, [Ins2(e.rest[0].op, p, p + 1)], n);
    } else {
      var pushes := [Ins(Push, p), Ins(Push, p + 1)];
      RegsSplit(two + pushes, CChain([e.rest[0].op], e.rest[1..], p), n);
      RegsSplit(two, pushes, n);
    }
    RegsSplit(COperand(e.first, p), CTerm(e.rest[0], p + 1), n);
  }

  lemma {:induction false} TermRun(env: Env, x: Term, p: nat, st: St, r: Result) returns (t: St)
    requires RegsBelow(CTerm(x, p), |st.regs|) && |st.regs| >= MAX_PARAMS && !env.typed
    requires EvalTerm(env, x, st.mem) == Some(r)
    ensures Exec(env, CTerm(x, p), st) == Some(t) && Leaves(st, t, p, r.v, r.mem)
    decreases x, 0
  {
    hide Exec, RegsBelow, ExecInstr;
    t := OperandRun(env, x.operand, p, st, r);
  }

  /** The loop over the rest of a chain: the values on the stack and those to come make the same tree throughout. */
  lemma {:induction false} ChainRun(env: Env, ops: seq<Op>, rest: seq<Term>, p: nat, st: St, base: seq<Word>,
                                    vals: seq<Word>, rs: Results) returns (t: St)
    requires RegsBelow(CChain(ops, rest, p), |st.regs|) && |st.regs| >= MAX_PARAMS && !env.typed && p + 1 < |st.regs|
    requires Increasing(ops) && AllBinary(ops) && ops != []
    requires |vals| == |ops| + 1 && st.stack == base + vals
    requires EvalTerms(env, rest, st.mem) == Some(rs) && |rs.vs| == |rest|
    ensures AllBinary(ops + Ops(rest))
    ensures Exec(env, CChain(ops, rest, p), st) == Some(t)
    ensures Leaves(st.(stack := base), t, p, TreeValue(vals + rs.vs, ops + Ops(rest)), rs.mem)
    decreases rest, 0
  {
    hide Exec, RegsBelow, TreeValue, ExecInstr, CTerm, CUnwind, CReduce, Priority, Increasing, Reduced;
    if rest == [] {
      t := UnwindRun(env, ops, p, st, base, vals);
      assert vals + [] == vals && ops + [] == ops;
    } else {
      var x, op := rest[0], rest[0].op;
      RegsOfChain(ops, rest, p, |st.regs|);
      OpsBinary(rest);
      var t1, vals1 := ReduceRun(env, ops, Ops(rest), p, st, base, vals, rs.vs);
      var r := EvalTerm(env, x, st.mem).value;
      var t2 := TermRun(env, x, p, t1, r);
      var t3 := ThenPush(env, CTerm(x, p), p, t1, t2);
      ReducedIncreasing(ops, op);
      var ops1, vals2, tail := Reduced(ops, op) + [op], vals1 + [r.v], Results(rs.vs[1..], rs.mem);
      assert t3.stack == base + vals2;
      BinaryAppend(Reduced(ops, op), [op]);
      t := ChainRun(env, ops1, rest[1..], p, t3, base, vals2, tail);
      ChainJoin(vals1, r.v, tail.vs, Reduced(ops, op), op, Ops(rest[1..]));
      assert rs.vs == [r.v] + tail.vs;
      ChainCode(env, ops, rest, p, st, t1, t3, t);
    }
  }

  lemma ChainJoin(vals: seq<Word>, v: Word, ws: seq<Word>, ops: seq<Op>, op: Op, more: seq<Op>)
    ensures vals + ([v] + ws) == vals + [v] + ws && ops + ([op] + more) == ops + [op] + more
  {
  }

  lemma ChainCode(env: Env, ops: seq<Op>, rest: seq<Term>, p: nat, st: St, t1: St, t3: St, t: St)
    requires rest != [] && Exec(env, CReduce(ops, rest[0].op, p), st) == Some(t1)
    requires Exec(env, CTerm(rest[0], p) + [Ins(Push, p)], t1) == Some(t3)
    requires Exec(env, CChain(Reduced(ops, rest[0].op) + [rest[0].op], rest[1..], p), t3) == Some(t)
    ensures Exec(env, CChain(ops, rest, p), st) == Some(t)
  {
    hide Exec, CTerm, CReduce, Reduced;
    var reduce, step := CReduce(ops, rest[0].op, p), CTerm(rest[0], p) + [Ins(Push, p)];
    var more := CChain(Reduced(ops, rest[0].op) + [rest[0].op], rest[1..], p);
    ExecThen(env, reduce, step, st, t1, t3);
    ExecThen(env, reduce + step, more, st, t3, t);
    assert reduce + step + more == reduce + CTerm(rest[0], p) + [Ins(Push, p)] + more;
  }

  lemma {:induction false} OpsBinary(rest: seq<Term>)
    ensures AllBinary(Ops(rest))
  {
  }

  /** The values are in registers k, k+1, ..., in order. */
  ghost predicate HoldsFrom(regs: seq<Word>, k: nat, vs: seq<Word>) {
    vs == [] || (k + |vs| <= |regs| && regs[k..k + |vs|] == vs)
  }

  /** The arguments end up in registers k, k+1, ..., in order. */
  lemma {:induction false} ArgsRun(env: Env, args: seq<Expr>, k: nat, st: St, rs: Results) returns (t: St)
    requires RegsBelow(CArgs(args, k), |st.regs|) && |st.regs| >= MAX_PARAMS && !env.typed
    requires EvalArgs(env, args, st.mem) == Some(rs)
    ensures Exec(env, CArgs(args, k), st) == Some(t) && Keeps(st, t, k) && t.mem == rs.mem
    ensures |rs.vs| == |args| && HoldsFrom(t.regs, k, rs.vs)
    decreases args, 0
  {
    hide Exec, RegsBelow, ExecInstr, CExpr, EvalExpr, HoldsFrom;
    if args == [] {
      ArgumentsNone(st.regs, k);
      t := st;
      ExecNone(env, st);
    } else {
      var n := |st.regs|;
      RegsSplit(CExpr(args[0], k), CArgs(args[1..], k + 1), n);
      var r := EvalExpr(env, args[0], st.mem).value;
      var t1 := ExprRun(env, args[0], k, st, r);
      var tail := EvalArgs(env, args[1..], r.mem).value;
      t := ArgsRun(env, args[1..], k + 1, t1, tail);
      Sequence(env, CExpr(args[0], k), CArgs(args[1..], k + 1), st, t1, t, k, k + 1);
      ArgumentsJoin(t.regs, k, r.v, tail.vs);
    }
  }

  lemma ArgumentsNone(regs: seq<Word>, k: nat)
    ensures HoldsFrom(regs, k, [])
  {
  }

  lemma ArgumentsJoin(regs: seq<Word>, k: nat, v: Word, vs: seq<Word>)
    requires k < |regs| && regs[k] == v && HoldsFrom(regs, k + 1, vs)
    ensures HoldsFrom(regs, k, [v] + vs)
  {
    if vs == [] {
      assert regs[k..k + 1] == [v];
    } else {
      assert regs[k..k + 1 + |vs|] == [regs[k]] + regs[k + 1..k + 1 + |vs|];
    }
  }

  /** The first index and the others, evaluated. */
  lemma IndexParts(env: Env, lv: LValue, k: nat, indexes: seq<Expr>, a: Word, mem: Mem, r: Result)
    returns (start: Word, i: Result)
    requires indexes != [] && !env.typed && EvalIndexes(env, lv, k, indexes, a, mem) == Some(r)
    ensures if lv.isPointer != 0 then ReadMem(env, mem, a, PTR_SIZE) == Some(start) else start == a
    ensures EvalExpr(env, indexes[0], mem) == Some(i)
    ensures var size := if lv.isPointer <= 1 then lv.tsize else PTR_SIZE;
            EvalIndexes(env, lv, k + 1, indexes[1..], Advance(start, i.v, size), i.mem) == Some(r)
  {
    hide ReadMem, Advance, EvalExpr;
    start := IndexStart(env, lv, k, a, mem).value;
    i := EvalExpr(env, indexes[0], mem).value;
  }

  lemma {:induction false} IndexesRun(env: Env, lv: LValue, k: nat, indexes: seq<Expr>, p: nat, st: St, a: Word,
                                      r: Result)
    returns (t: St)
    requires RegsBelow(CIndexes(lv, indexes, p), |st.regs|) && |st.regs| >= MAX_PARAMS && !env.typed
    requires p < |st.regs| && st.regs[p] == a && EvalIndexes(env, lv, k, indexes, a, st.mem) == Some(r)
    ensures Exec(env, CIndexes(lv, indexes, p), st) == Some(t) && Leaves(st, t, p, r.v, r.mem)
    decreases indexes, 0
  {
    hide Exec, RegsBelow, CExpr, Scaled, Advance, ReadMem, EvalExpr, ExecInstr;
    var n := |st.regs|;
    if indexes == [] {
      t := st;
      ExecNone(env, st);
    } else {
      var start, i := IndexParts(env, lv, k, indexes, a, st.mem, r);
      hide EvalIndexes;
      var size := if lv.isPointer <= 1 then lv.tsize else PTR_SIZE;
      var deref := if lv.isPointer != 0 then [Read(p, p, PTR_SIZE)] else [];
      var index, scale, more := CExpr(indexes[0], p + 1), Scaled(p, size), CIndexes(lv, indexes[1..], p);
      RegsSplit(deref + index + scale, more, n);
      RegsSplit(deref + index, scale, n);
      RegsSplit(deref, index, n);
      var t1 := DerefRun(env, lv.isPointer != 0, p, st, a, start);
      var t2 := ExprRun(env, indexes[0], p + 1, t1, i);
      Sequence(env, deref, index, st, t1, t2, p, p + 1);
      var t3 := ScaledRun(env, deref + index, p, size, st, t2, start, i.v);
      t := IndexesRun(env, lv, k + 1, indexes[1..], p, t3, Advance(start, i.v, size), r);
      Sequence(env, deref + index + scale, more, st, t3, t, p, p);
    }
  }

  /** Reading a pointer through register p, if there is one to read. */
  lemma DerefRun(env: Env, deref: bool, p: nat, st: St, a: Word, v: Word) returns (t: St)
    requires p < |st.regs| && st.regs[p] == a
    requires if deref then ReadMem(env, st.mem, a, PTR_SIZE) == Some(v) else v == a
    ensures Exec(env, if deref then [Read(p, p, PTR_SIZE)] else [], st) == Some(t)
    ensures Leaves(st, t, p, v, st.mem)
  {
    hide Exec, ReadMem;
    ExecNone(env, st);
    t := st;
    if deref {
      t := ThenWrite(env, [], Read(p, p, PTR_SIZE), st, st, p, p, v);
      assert [] + [Read(p, p, PTR_SIZE)] == [Read(p, p, PTR_SIZE)];
    }
  }

  lemma {:induction false} LValueRun(env: Env, lv: LValue, p: nat, st: St, r: Result) returns (t: St)
    requires RegsBelow(CLValue(lv, p), |st.regs|) && |st.regs| >= MAX_PARAMS && !env.typed
    requires EvalLValue(env, lv, st.mem) == Some(r)
    ensures Exec(env, CLValue(lv, p), st) == Some(t) && Leaves(st, t, p, r.v, r.mem)
    decreases lv, 0
  {
    hide Exec, RegsBelow, CIndexes, EvalIndexes;
    var ins := Named(GetVarAddr, p, lv.name);
    RegsSplit([ins], CIndexes(lv, lv.indexes, p), |st.regs|);
    RegFirst(ins, |st.regs|);
    ExecNone(env, st);
    var a := env.addr[lv.name];
    var t1 := ThenWrite(env, [], ins, st, st, p, p, a);
    assert [] + [ins] == [ins];
    t := IndexesRun(env, lv, 0, lv.indexes, p, t1, a, r);
    Sequence(env, [ins], CIndexes(lv, lv.indexes, p), st, t1, t, p, p);
  }

  lemma {:induction false} SuffixRun(env: Env, lv: LValue, prefix: Option<BinaryOp>, suffix: Suffix, p: nat, st: St,
                                     a: Word, r: Result) returns (t: St)
    requires RegsBelow(CSuffix(lv, prefix, suffix, p), |st.regs|) && |st.regs| >= MAX_PARAMS && !env.typed
    requires p < |st.regs| && st.regs[p] == a
    requires EvalSuffix(env, lv, prefix, suffix, a, st.mem) == Some(r)
    ensures Exec(env, CSuffix(lv, prefix, suffix, p), st) == Some(t) && Leaves(st, t, p, r.v, r.mem)
    decreases suffix, 0
  {
    hide Exec, RegsBelow, Scaled, Advance, ReadMem, COperand;
    match suffix
    case PlusOperand(o) =>
      var n := |st.regs|;
      var deref := if IsReference(lv) then [Read(p, p, PTR_SIZE)] else [];
      var start := PlusStart(env, lv, a, st.mem).value;
      var operand, scale := COperand(o, p + 1), Scaled(p, lv.tsize);
      RegsSplit(deref + operand, scale, n);
      RegsSplit(deref, operand, n);
      var t1 := DerefRun(env, IsReference(lv), p, st, a, start);
      var i := EvalOperand(env, o, st.mem).value;
      var t2 := OperandRun(env, o, p + 1, t1, i);
      Sequence(env, deref, operand, st, t1, t2, p, p + 1);
      t := ScaledRun(env, deref + operand, p, lv.tsize, st, t2, start, i.v);
    case _ => t := PlainSuffixRun(env, lv, prefix, suffix, p, st, a, r);
  }

  /** A named call: the registers below p survive it on the stack, register k holds argument k when the call runs, and
      register p holds the result afterwards. */
  lemma {:induction false} CallRun(env: Env, name: string, args: seq<Expr>, p: nat, st: St, r: Result) returns (t: St)
    requires p < |st.regs| && RegsBelow(CArgs(args, 0), |st.regs|) && |st.regs| >= MAX_PARAMS && !env.typed
    requires EvalCall(env, name, args, st.mem) == Some(r)
    ensures Exec(env, Pushes(0, p) + CArgs(args, 0) + [Named(FunctionCall, p, name)] + Pops(p), st) == Some(t)
    ensures Leaves(st, t, p, r.v, r.mem)
    decreases args, 1
  {
    hide Exec, RegsBelow, CArgs, Pushes, Pops, ExecInstr, HoldsFrom;
    PushesRun(env, 0, p, st);
    var t1 := st.(stack := st.stack + st.regs[0..p]);
    var rs := EvalArgs(env, args, st.mem).value;
    var t2 := ArgsRun(env, args, 0, t1, rs);
    var ins, arity := Named(FunctionCall, p, name), env.arity[name];
    ArgumentsArrive(t2.regs, rs.vs, arity);
    var t3 := AfterCall(env, t2, p, env.call(name, rs.vs[..arity], rs.mem));
    NamedCall(env, name, p, t2);
    t := PopsBack(env, p, st, t3);
    ExecThen(env, Pushes(0, p), CArgs(args, 0), st, t1, t2);
    ExecThen(env, Pushes(0, p) + CArgs(args, 0), [ins], st, t2, t3);
    ExecThen(env, Pushes(0, p) + CArgs(args, 0) + [ins], Pops(p), st, t3, t);
  }

  lemma ArgumentsArrive(regs: seq<Word>, vs: seq<Word>, arity: nat)
    requires arity <= |vs| && HoldsFrom(regs, 0, vs) && arity <= |regs|
    ensures regs[..arity] == vs[..arity]
  {
    if vs != [] {
      assert regs[..arity] == regs[0..|vs|][..arity];
    }
  }

  lemma NamedCall(env: Env, name: string, p: nat, st: St)
    requires p < |st.regs| && name in env.arity && env.arity[name] <= |st.regs|
    ensures Exec(env, [Named(FunctionCall, p, name)], st)
         == Some(AfterCall(env, st, p, env.call(name, st.regs[..env.arity[name]], st.mem)))
  {
    hide AfterCall;
    ExecOne(env, Named(FunctionCall, p, name), st);
  }

  lemma PointedCall(env: Env, p: nat, st: St)
    requires p < |st.regs| && POINTER_REG < |st.regs| && env.pointerArity(st.regs[POINTER_REG]) <= |st.regs|
    ensures var f := st.regs[POINTER_REG];
            var r := env.pointerCall(f, st.regs[..env.pointerArity(f)], st.mem);
            Exec(env, [Ins2(PointerCall, p, POINTER_REG)], st) == Some(AfterCall(env, st, p, r))
  {
    hide AfterCall;
    ExecOne(env, Ins2(PointerCall, p, POINTER_REG), st);
  }

  /** The saved registers come back below the result. */
  lemma PopsBack(env: Env, p: nat, st: St, t: St) returns (u: St)
    requires p < |t.regs| && |t.regs| == |st.regs| && t.entered == st.entered && t.stack == st.stack + st.regs[0..p]
    ensures Exec(env, Pops(p), t) == Some(u) && Leaves(st, u, p, t.regs[p], t.mem)
  {
    hide Exec, Pops;
    PopsRun(env, p, t, st.stack, st.regs[0..p]);
    u := t.(stack := st.stack, regs := st.regs[0..p] + t.regs[p..]);
  }

  /** A call through the pointer in register p: the pointer waits on the stack while the arguments are computed, and is
      taken into the last register, so at most seven arguments arrive. */
  lemma {:induction false} PointerCallRun(env: Env, args: seq<Expr>, p: nat, st: St, f: Word, r: Result) returns (t: St)
    requires p < |st.regs| && st.regs[p] == f && RegsBelow(CArgs(args, 0), |st.regs|) && |st.regs| >= MAX_PARAMS
    requires !env.typed
    requires EvalPointerCall(env, f, args, st.mem) == Some(r)
    ensures Exec(env, CPointerCall(args, p), st) == Some(t) && Leaves(st, t, p, r.v, r.mem)
    decreases args, 1
  {
    hide Exec, RegsBelow, CArgs, Pushes, Pops, ExecInstr, HoldsFrom;
    var saved := st.regs[0..p];
    PushesRun(env, 0, p, st);
    var t0 := st.(stack := st.stack + saved);
    var push := Ins(Push, p);
    var t1 := ThenPush(env, Pushes(0, p), p, st, t0);
    var rs := EvalArgs(env, args, st.mem).value;
    var t2 := ArgsRun(env, args, 0, t1, rs);
    var pop, ins := Ins(Pop, POINTER_REG), Ins2(PointerCall, p, POINTER_REG);
    PopOne(env, POINTER_REG, t2, st.stack + saved, f);
    var t3 := t2.(stack := st.stack + saved, regs := t2.regs[POINTER_REG := f]);
    var arity := env.pointerArity(f);
    ArgumentsArrive(t2.regs, rs.vs, arity);
    assert t3.regs[..arity] == t2.regs[..arity];
    var t4 := AfterCall(env, t3, p, env.pointerCall(f, rs.vs[..arity], rs.mem));
    PointedCall(env, p, t3);
    t := PopsBack(env, p, st, t4);
    var front := Pushes(0, p) + [push] + CArgs(args, 0);
    ExecThen(env, Pushes(0, p) + [push], CArgs(args, 0), st, t1, t2);
    ExecThen(env, front, [pop], st, t2, t3);
    ExecThen(env, front + [pop], [ins], st, t3, t4);
    assert front + [pop] + [ins] == front + [pop, ins];
    ExecThen(env, front + [pop, ins], Pops(p), st, t4, t);
  }

  lemma {:induction false} OperandRun(env: Env, o: Operand, p: nat, st: St, r: Result) returns (t: St)
    requires RegsBelow(COperand(o, p), |st.regs|) && |st.regs| >= MAX_PARAMS && !env.typed
    requires EvalOperand(env, o, st.mem) == Some(r)
    ensures Exec(env, COperand(o, p), st) == Some(t) && Leaves(st, t, p, r.v, r.mem)
    decreases o, 1
  {
    hide Exec, RegsBelow, ExecInstr, CExpr, CLValue, CPointerCall, CArgs, EvalCall, EvalPointerCall, EvalLValue;
    var n := |st.regs|;
    match o
    case Num(v, neg, _) =>
      RegsSplit([Const(p, v)], Negated(neg, p), n);
      RegFirst(Const(p, v), n);
      var t1 := ConstRun(env, p, v, st);
      t := NegatedRun(env, [Const(p, v)], neg, p, st, t1, Wrap(v), st.mem);
    case LogNot(o1) =>
      RegsSplit(COperand(o1, p), [Ins(Not, p)], n);
      var r1 := EvalOperand(env, o1, st.mem).value;
      var t1 := OperandRun(env, o1, p, st, r1);
      t := NotRun(env, COperand(o1, p), p, st, t1, r1.v);
    case Paren(e, neg) =>
      RegsSplit(CExpr(e, p), Negated(neg, p), n);
      var r1 := EvalExpr(env, e, st.mem).value;
      var t1 := ExprRun(env, e, p, st, r1);
      t := NegatedRun(env, CExpr(e, p), neg, p, st, t1, r1.v, r1.mem);
    case Value(_, _, _, _, _, _) => t := ValueRun(env, o, p, st, r);
    case AddressOf(lv) => t := LValueRun(env, lv, p, st, r);
    case Call(name, args, neg) =>
      var ins := Named(FunctionCall, p, name);
      var front := Pushes(0, p) + CArgs(args, 0);
      RegsSplit(front + [ins] + Pops(p), Negated(neg, p), n);
      RegsSplit(front + [ins], Pops(p), n);
      RegsSplit(front, [ins], n);
      RegsSplit(Pushes(0, p), CArgs(args, 0), n);
      RegFirst(ins, n);
      var r1 := EvalCall(env, name, args, st.mem).value;
      var t1 := CallRun(env, name, args, p, st, r1);
      t := NegatedRun(env, front + [ins] + Pops(p), neg, p, st, t1, r1.v, r1.mem);
    case FunctionAddress(name, neg) =>
      var ins := Named(GetVarAddr, p, name);
      RegsSplit(Pushes(0, p) + [ins] + Pops(p), Negated(neg, p), n);
      RegsSplit(Pushes(0, p) + [ins], Pops(p), n);
      RegsSplit(Pushes(0, p), [ins], n);
      RegFirst(ins, n);
      var t1 := FunctionAddressRun(env, name, p, st);
      t := NegatedRun(env, Pushes(0, p) + [ins] + Pops(p), neg, p, st, t1, env.addr[name], st.mem);
  }

  lemma ConstRun(env: Env, p: nat, v: int, st: St) returns (t: St)
    requires p < |st.regs|
    ensures Exec(env, [Const(p, v)], st) == Some(t) && Leaves(st, t, p, Wrap(v), st.mem)
  {
    hide Exec, Wrap;
    ExecNone(env, st);
    t := ThenWrite(env, [], Const(p, v), st, st, p, p, Wrap(v));
    assert [] + [Const(p, v)] == [Const(p, v)];
  }

  lemma NotRun(env: Env, code: seq<Instr>, p: nat, st: St, t: St, v: Word) returns (u: St)
    requires Exec(env, code, st) == Some(t) && Leaves(st, t, p, v, t.mem)
    ensures Exec(env, code + [Ins(Not, p)], st) == Some(u) && Leaves(st, u, p, LogicalNot(v), t.mem)
  {
    hide Exec;
    u := ThenWrite(env, code, Ins(Not, p), st, t, p, p, LogicalNot(v));
  }

  lemma FunctionAddressRun(env: Env, name: string, p: nat, st: St) returns (t: St)
    requires p < |st.regs| && name in env.addr
    ensures Exec(env, Pushes(0, p) + [Named(GetVarAddr, p, name)] + Pops(p), st) == Some(t)
    ensures Leaves(st, t, p, env.addr[name], st.mem)
  {
    hide Exec, Pushes, Pops;
    var saved := st.regs[..p];
    var ins := Named(GetVarAddr, p, name);
    PushesRun(env, 0, p, st);
    var t1 := st.(stack := st.stack + st.regs[0..p]);
    var t2 := t1.(regs := t1.regs[p := env.addr[name]]);
    ExecOne(env, ins, t1);
    PopsRun(env, p, t2, st.stack, saved);
    t := t2.(stack := st.stack, regs := saved + t2.regs[p..]);
    ExecThen(env, Pushes(0, p), [ins], st, t1, t2);
    ExecThen(env, Pushes(0, p) + [ins], Pops(p), st, t2, t);
  }

  lemma {:induction false} ValueRun(env: Env, o: Operand, p: nat, st: St, r: Result) returns (t: St)
    requires o.Value? && RegsBelow(COperand(o, p), |st.regs|) && |st.regs| >= MAX_PARAMS && !env.typed
    requires EvalOperand(env, o, st.mem) == Some(r)
    ensures Exec(env, COperand(o, p), st) == Some(t) && Leaves(st, t, p, r.v, r.mem)
    decreases o, 0
  {
    hide Exec, RegsBelow, ExecInstr, CExpr, CLValue, CArgs, CSuffix, EvalLValue, EvalSuffix, EvalPointerCall;
    var n := |st.regs|;
    var lv, args := o.lv, o.args;
    var address, use := CLValue(lv, p), CSuffix(lv, o.prefix, o.suffix, p);
    var call := if o.calls then CPointerCall(args, p) else [];
    RegsSplit(address + use + call, Negated(o.neg, p), n);
    RegsSplit(address + use, call, n);
    RegsSplit(address, use, n);
    var a := EvalLValue(env, lv, st.mem).value;
    var t1 := LValueRun(env, lv, p, st, a);
    var u := EvalSuffix(env, lv, o.prefix, o.suffix, a.v, a.mem).value;
    var t2 := SuffixRun(env, lv, o.prefix, o.suffix, p, t1, a.v, u);
    Sequence(env, address, use, st, t1, t2, p, p);
    var t3, w := t2, u;
    if o.calls {
      RegsOfPointerCall(args, p, n);
      w := EvalPointerCall(env, u.v, args, u.mem).value;
      t3 := PointerCallRun(env, args, p, t2, u.v, w);
    } else {
      ExecNone(env, t2);
    }
    Sequence(env, address + use, call, st, t2, t3, p, p);
    t := NegatedRun(env, address + use + call, o.neg, p, st, t3, w.v, w.mem);
  }

  lemma RegsOfPointerCall(args: seq<Expr>, p: nat, n: nat)
    requires RegsBelow(CPointerCall(args, p), n)
    ensures RegsBelow(CArgs(args, 0), n)
  {
    hide RegsBelow, CArgs;
    var front := Pushes(0, p) + [Ins(Push, p)];
    var calls := [Ins(Pop, POINTER_REG), Ins2(PointerCall, p, POINTER_REG)];
    RegsSplit(front + CArgs(args, 0) + calls, Pops(p), n);
    RegsSplit(front + CArgs(args, 0), calls, n);
    RegsSplit(front, CArgs(args, 0), n);
  }
}
