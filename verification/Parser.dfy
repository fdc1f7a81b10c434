/** The parser itself: one pass over the tokens that emits IL as it reads and patches jumps behind itself.  Each method
    accepts exactly what the grammar does and appends exactly the code of what it recognised. */
module ParserState {
  import opened Words
  import opened Il
  import opened Ast
  import opened Compile
  import opened Pieces
  import opened Tokens
  import opened Numbers
  import opened Grammar
  import ExprCorrect

  class Parser {
    const ts: seq<Token>
    const names: Names
    var pos: nat
    var il: seq<Instr>
    var blocks: seq<Block>
    /** The exit jumps of the switches around the current place, innermost last. */
    var breaks: seq<nat>

    constructor (ts: seq<Token>, names: Names, il: seq<Instr>, blocks: seq<Block>)
      ensures this.ts == ts && this.names == names && this.il == il && this.blocks == blocks
      ensures pos == 0 && breaks == []
    {
      this.ts, this.names, this.il, this.blocks, pos, breaks := ts, names, il, blocks, 0, [];
    }

    ghost function Sc(b: nat): Scope
      reads this`blocks
    {
      Scope(names, blocks, b)
    }

    function Next(): Token
      reads this`pos
    {
      Peek(ts, pos)
    }

    method Emit(ins: Instr)
      modifies `il
      ensures il == old(il) + [ins]
    {
      il := il + [ins];
    }

    method EmitAll(a: Instr, b: Instr)
      modifies `il
      ensures il == old(il) + [a, b]
    {
      Emit(a);
      Emit(b);
    }

    // ----- saving registers around calls -----

    method PushAll(n: nat)
      modifies `il
      ensures il == old(il) + Pushes(0, n)
    {
      var pn := 0;
      while pn < n
        invariant 0 <= pn <= n && il + Pushes(pn, n) == old(il) + Pushes(0, n)
      {
        assert il + Pushes(pn, n) == il + [Ins(Push, pn)] + Pushes(pn + 1, n);
        Emit(Ins(Push, pn));
        pn := pn + 1;
      }
    }

    method PopAll(n: nat)
      modifies `il
      ensures il == old(il) + Pops(n)
    {
      var pn := n;
      while pn > 0
        invariant 0 <= pn <= n && il + Pops(pn) == old(il) + Pops(n)
      {
        assert il + Pops(pn) == il + [Ins(Pop, pn - 1)] + Pops(pn - 1);
        pn := pn - 1;
        Emit(Ins(Pop, pn));
      }
    }

    // ----- expressions -----

    method ReadArgs(b: nat) returns (ok: bool, ghost args: seq<Expr>)
      requires pos <= |ts|
      modifies `pos, `il
      ensures ok <==> PArgs(Sc(b), ts, old(pos)).Some?
      ensures ok ==> PArgs(Sc(b), ts, old(pos)) == Some(Parse(args, pos)) && il == old(il) + CArgs(args, 0)
      decreases |ts| - pos, 11
    {
      hide CExpr, PExpr, PArgs, CArgs, Prepend;
      var n := 0;
      args := [];
      ghost var goal := PArgs(Sc(b), ts, pos);
      PrependNone(goal);
      ArgsNone(0);
      while !Next().TClBracket?
        invariant old(pos) <= pos <= |ts| && Prepend(args, PArgs(Sc(b), ts, pos)) == goal
        invariant n == |args| && il == old(il) + CArgs(args, 0)
        decreases |ts| - pos
      {
        ArgsStep(Sc(b), ts, pos, args);
        ghost var e;
        ghost var before := il;
        ok, e := ReadExpression(n, b);
        if !ok { return; }
        if Next().TComma? {
          pos := pos + 1;
        }
        ArgsMore(args, 0, e);
        assert before + CExpr(e, n) == old(il) + (CArgs(args, 0) + CExpr(e, n));
        args := args + [e];
        n := n + 1;
      }
      pos := pos + 1;
      ArgsEnd(Sc(b), ts, pos - 1, args);
      ok := true;
    }

    method ReadPointerCall(p: nat, b: nat) returns (ok: bool, ghost args: seq<Expr>)
      requires pos < |ts| && Next().TOpBracket?
      modifies `pos, `il
      ensures ok <==> PArgs(Sc(b), ts, old(pos) + 1).Some?
      ensures ok ==> PArgs(Sc(b), ts, old(pos) + 1) == Some(Parse(args, pos)) && il == old(il) + CPointerCall(args, p)
      decreases |ts| - pos, 0
    {
      hide CArgs, PArgs;
      PushAll(p);
      Emit(Ins(Push, p));
      pos := pos + 1;
      ok, args := ReadArgs(b);
      if !ok { return; }
      EmitAll(Ins(Pop, POINTER_REG), Ins2(PointerCall, p, POINTER_REG));
      PopAll(p);
      assert il == old(il) + CPointerCall(args, p);
    }

    /** The address of a variable or element; the loop reads the indexes. */
    method ReadLValue(v: Var, p: nat, b: nat)
      returns (ok: bool, size: int, isReference: bool, tsize: nat, ghost lv: LValue)
      requires pos < |ts| && Next().TIdent?
      modifies `pos, `il
      ensures ok <==> PLValue(Sc(b), v, ts, old(pos) + 1).Some?
      ensures ok ==> PLValue(Sc(b), v, ts, old(pos) + 1) == Some(Parse(lv, pos)) && il == old(il) + CLValue(lv, p)
      ensures ok ==> size == LvSize(lv) && isReference == IsReference(lv) && tsize == lv.tsize
      decreases |ts| - pos, 2
    {
      hide CExpr, PExpr, FindType, CIndexes, CIndex, PIndexes, Prepend, CLValue;
      ok, size, isReference, tsize := false, 0, true, 0;
      lv := LValue(v.name, v.isPointer, v.isFunction, v.arraySize, 0, []);
      pos := pos + 1;
      var t := FindType(names.types, v.typeName);
      if t.None? { return; }
      tsize := t.value.size;
      Emit(Named(GetVarAddr, p, v.name));
      size := if v.isPointer != 0 || v.isFunction != 0 then PTR_SIZE else tsize;
      if v.arraySize > 0 {
        isReference := false;
      }
      ghost var xs := [];
      ghost var start, goal := il, PIndexes(Sc(b), v, ts, pos);
      PrependNone(goal);
      lv := lv.(tsize := tsize);
      NoIndexes(lv, p);
      while Next().TOpSquare?
        invariant old(pos) < pos <= |ts| && Prepend(xs, PIndexes(Sc(b), v, ts, pos)) == goal
        invariant lv == LValue(v.name, v.isPointer, v.isFunction, v.arraySize, tsize, xs)
        invariant il == start + CIndexes(lv, xs, p)
        invariant size == LvSize(lv) && isReference == IsReference(lv)
        invariant !ok
        decreases |ts| - pos
      {
        IndexesStep(Sc(b), v, ts, pos, xs);
        ghost var e;
        isReference := true;
        if v.isPointer <= 1 {
          size := tsize;
        }
        if v.isPointer == 0 && v.arraySize == 0 { return; }
        pos := pos + 1;
        ok, e := ReadIndex(v.isPointer != 0, size, p, b, lv);
        if !ok { return; }
        ok := false;
        if !Next().TClSquare? { return; }
        pos := pos + 1;
        IndexesMore(lv, xs, e, p);
        Regroup(start, CIndexes(lv, xs, p), CIndex(lv, e, p));
        xs := xs + [e];
        IndexesSame(lv, lv.(indexes := xs), xs, p);
        lv := lv.(indexes := xs);
      }
      IndexesEnd(Sc(b), v, ts, pos, xs);
      if Next().TDot? || Next().TArrow? { return; }
      ok := true;
      LValueCode(lv, old(il), p);
    }

    /** Behind the opening square bracket: the index, and the address moved by it. */
    method ReadIndex(isPointer: bool, size: int, p: nat, b: nat, ghost lv: LValue) returns (ok: bool, ghost e: Expr)
      requires pos <= |ts| && isPointer == (lv.isPointer != 0)
      requires size == if lv.isPointer <= 1 then lv.tsize else PTR_SIZE
      modifies `pos, `il
      ensures ok <==> PExpr(Sc(b), ts, old(pos)).Some?
      ensures ok ==> PExpr(Sc(b), ts, old(pos)) == Some(Parse(e, pos)) && il == old(il) + CIndex(lv, e, p)
      decreases |ts| - pos, 10
    {
      hide PExpr, CExpr, Scaled;
      if isPointer {
        Emit(Read(p, p, PTR_SIZE));
      }
      ok, e := ReadExpression(p + 1, b);
      if !ok { return; }
      EmitScaled(p, size);
      assert il == old(il) + CIndex(lv, e, p);
    }

    /** The offset in register p+1 is scaled by the element size and added to the address in register p. */
    method EmitScaled(p: nat, size: int)
      modifies `il
      ensures il == old(il) + Scaled(p, size)
    {
      if size != 1 {
        EmitAll(Const(p + 2, size), Ins2(Mul, p + 1, p + 2));
      }
      Emit(Ins2(Add, p, p + 1));
    }

    method EmitPrefix(prefix: Option<BinaryOp>, p: nat, size: int)
      modifies `il
      ensures il == old(il) + CPrefix(prefix, p, size)
    {
      if prefix.Some? {
        EmitAll(Read(p + 1, p, size), Const(p + 2, 1));
        EmitAll(Ins2(prefix.value, p + 1, p + 2), Write(p + 1, p, size));
      }
    }

    method EmitPostfix(op: BinaryOp, p: nat, size: int)
      modifies `il
      ensures il == old(il) + CPostfix(op, p, size)
    {
      EmitAll(Read(p + 1, p, size), Ins(Push, p + 1));
      EmitAll(Const(p + 2, 1), Ins2(op, p + 1, p + 2));
      EmitAll(Write(p + 1, p, size), Ins(Pop, p));
    }

    /** What an expression does with an lvalue's address. */
    method ReadSuffix(v: Var, size: int, isReference: bool, tsize: nat, prefix: Option<BinaryOp>, p: nat, b: nat,
                      ghost lv: LValue)
      returns (ok: bool, ghost s: Suffix)
      requires pos <= |ts| && size == LvSize(lv) && isReference == IsReference(lv) && tsize == lv.tsize
      modifies `pos, `il
      ensures ok <==> PSuffix(Sc(b), v, lv, ts, old(pos)).Some?
      ensures ok ==>
                PSuffix(Sc(b), v, lv, ts, old(pos)) == Some(Parse(s, pos)) && il == old(il) + CSuffix(lv, prefix, s, p)
      decreases |ts| - pos, 3
    {
      hide COperand, POperand, CPrefix, CPostfix, Scaled, LvSize, IsReference;
      s := Plain;
      if Next().TPlus? && (v.isPointer > 0 || v.arraySize > 0) {
        pos := pos + 1;
        if isReference {
          Emit(Read(p, p, PTR_SIZE));
        }
        ghost var o;
        ok, o := ReadOperand(p + 1, b);
        if !ok { return; }
        s := PlusOperand(o);
        EmitScaled(p, tsize);
        assert il == old(il) + CSuffix(lv, prefix, s, p);
        return;
      }
      ok := true;
      if isReference {
        EmitPrefix(prefix, p, size);
        if Next().TPlusPlus? {
          s := PostIncrement;
          pos := pos + 1;
          EmitPostfix(Add, p, size);
        } else if Next().TMinusMinus? {
          s := PostDecrement;
          pos := pos + 1;
          EmitPostfix(Sub, p, size);
        } else {
          Emit(Read(p, p, size));
        }
        assert il == old(il) + CSuffix(lv, prefix, s, p);
      }
    }

    method ReadValue(v: Var, prefix: Option<BinaryOp>, neg: bool, p: nat, b: nat) returns (ok: bool, ghost o: Operand)
      requires pos < |ts| && Next().TIdent?
      modifies `pos, `il
      ensures ok <==> PValue(Sc(b), v, prefix, neg, ts, old(pos) + 1).Some?
      ensures ok ==> PValue(Sc(b), v, prefix, neg, ts, old(pos) + 1) == Some(Parse(o, pos))
      ensures ok ==> il == old(il) + COperand(o, p)
      decreases |ts| - pos, 3
    {
      hide CLValue, CSuffix, CPointerCall, PLValue, PSuffix, PArgs, LvSize, IsReference, COperand, Negated;
      o := Num(0, neg, Character);
      ghost var lv, suffix, args;
      var size, isReference, tsize;
      ok, size, isReference, tsize, lv := ReadLValue(v, p, b);
      if !ok { return; }
      ok, suffix := ReadSuffix(v, size, isReference, tsize, prefix, p, b, lv);
      if !ok { return; }
      if Next().TOpBracket? {
        ok, args := ReadPointerCall(p, b);
        if !ok { return; }
        o := Value(lv, prefix, suffix, true, args, neg);
      } else {
        o := Value(lv, prefix, suffix, false, [], neg);
        assert il == il + [];
      }
      EmitNegated(neg, p);
      ValueCode(o, old(il), p);
    }

    method EmitNegated(neg: bool, p: nat)
      modifies `il
      ensures il == old(il) + Negated(neg, p)
    {
      if neg {
        Emit(Ins(Negate, p));
      }
    }

    /** Behind the name of a function: a call, or without a bracket its address. */
    method ReadFunctionCall(name: string, p: nat, b: nat) returns (ok: bool, called: bool, ghost args: seq<Expr>)
      requires pos <= |ts|
      modifies `pos, `il
      ensures called == Peek(ts, old(pos)).TOpBracket?
      ensures !called ==> ok && pos == old(pos) && il == old(il) + [Named(GetVarAddr, p, name)]
      ensures called ==> (ok <==> PArgs(Sc(b), ts, old(pos) + 1).Some?)
      ensures called && ok ==> PArgs(Sc(b), ts, old(pos) + 1) == Some(Parse(args, pos))
      ensures called && ok ==> il == old(il) + CArgs(args, 0) + [Named(FunctionCall, p, name)]
      decreases |ts| - pos, 6
    {
      hide CArgs, PArgs;
      ok, called, args := true, Next().TOpBracket?, [];
      if called {
        pos := pos + 1;
        ok, args := ReadArgs(b);
        if !ok { return; }
        Emit(Named(FunctionCall, p, name));
      } else {
        Emit(Named(GetVarAddr, p, name));
      }
    }

    method ReadNamed(prefix: Option<BinaryOp>, neg: bool, p: nat, b: nat) returns (ok: bool, ghost o: Operand)
      requires pos <= |ts|
      modifies `pos, `il
      ensures ok <==> PNamed(Sc(b), prefix, neg, ts, old(pos)).Some?
      ensures ok ==> PNamed(Sc(b), prefix, neg, ts, old(pos)) == Some(Parse(o, pos)) && il == old(il) + COperand(o, p)
      decreases |ts| - pos, 4
    {
      hide PValue, PArgs, CArgs, Pushes, Pops, Lookup, FindFunction;
      ok, o := false, Num(0, neg, Character);
      if !Next().TIdent? { return; }
      var name := Next().name;
      var con := FindConstant(names.constants, name);
      var v := FindVariable(blocks, names.funcs, b, name);
      var f := FindFunction(names.funcs, name);
      assert v == Lookup(Sc(b), name) by { LookupIs(Sc(b), name); }
      if con.Some? {
        o := Num(con.value, neg, Constant(name));
        Emit(Const(p, con.value));
        pos := pos + 1;
        EmitNegated(neg, p);
        assert il == old(il) + COperand(o, p);
        ok := true;
      } else if v.Some? {
        ok, o := ReadValue(v.value, prefix, neg, p, b);
      } else if f.Some? {
        ok, o := ReadCall(name, neg, p, b);
      }
    }

    method ReadCall(name: string, neg: bool, p: nat, b: nat) returns (ok: bool, ghost o: Operand)
      requires pos < |ts|
      modifies `pos, `il
      ensures var called := Peek(ts, old(pos) + 1).TOpBracket?;
              && (ok <==> (called ==> PArgs(Sc(b), ts, old(pos) + 2).Some?))
              && (ok && !called ==> o == FunctionAddress(name, neg) && pos == old(pos) + 1)
              && (ok && called ==>
                    && o.Call? && o == Call(name, o.args, neg)
                    && PArgs(Sc(b), ts, old(pos) + 2) == Some(Parse(o.args, pos)))
      ensures ok ==> il == old(il) + COperand(o, p)
      decreases |ts| - pos, 3
    {
      hide PArgs, CArgs, Pushes, Pops, COperand, Negated;
      o := FunctionAddress(name, neg);
      PushAll(p);
      pos := pos + 1;
      ghost var args;
      var called;
      ok, called, args := ReadFunctionCall(name, p, b);
      if !ok { return; }
      if called {
        o := Call(name, args, neg);
      }
      PopAll(p);
      EmitNegated(neg, p);
      CallCode(name, args, neg, old(il), p);
      assert called ==>
        il == old(il) + Pushes(0, p) + CArgs(args, 0) + [Named(FunctionCall, p, name)] + Pops(p) + Negated(neg, p);
    }

    method ReadOperand(p: nat, b: nat) returns (ok: bool, ghost o: Operand)
      requires pos <= |ts|
      modifies `pos, `il
      ensures ok <==> POperand(Sc(b), ts, old(pos)).Some?
      ensures ok ==> POperand(Sc(b), ts, old(pos)) == Some(Parse(o, pos)) && il == old(il) + COperand(o, p)
      decreases |ts| - pos, 6
    {
      hide PPrimary, COperand;
      var neg := false;
      ok, o := false, Num(0, false, Character);
      if Next().TMinus? {
        neg := true;
        pos := pos + 1;
        if !(Next().TNumeric? || Next().TIdent? || Next().TOpBracket?) { return; }
      }
      ok, o := ReadPrimary(neg, p, b);
    }

    method ReadPrimary(neg: bool, p: nat, b: nat) returns (ok: bool, ghost o: Operand)
      requires pos <= |ts|
      modifies `pos, `il
      ensures ok <==> PPrimary(Sc(b), neg, ts, old(pos)).Some?
      ensures ok ==> PPrimary(Sc(b), neg, ts, old(pos)) == Some(Parse(o, pos)) && il == old(il) + COperand(o, p)
      decreases |ts| - pos, 5
    {
      hide PNamed, POperand, PExpr, PLValue, CLValue, CExpr, ParamValue, Lookup, LvSize, IsReference, COperand, Negated;
      ok, o := false, Num(0, neg, Character);
      if Next().TChar? {
        o := Num(Next().code, false, Character);
        Emit(Const(p, Next().code));
        pos := pos + 1;
        NumCode(o.value, Character, p);
        ok := true;
      } else if Next().TNumeric? {
        var n := ReadNumericParam(Next().text, neg);
        if n.None? { return; }
        o := Num(n.value, false, Digits(Next().text, neg));
        pos := pos + 1;
        Emit(Const(p, n.value));
        NumCode(n.value, o.form, p);
        ok := true;
      } else if Next().TLogNot? {
        pos := pos + 1;
        ghost var o1;
        ok, o1 := ReadOperand(p, b);
        if !ok { return; }
        o := LogNot(o1);
        Emit(Ins(Not, p));
        NotCode(o1, p);
        Regroup(old(il), COperand(o1, p), [Ins(Not, p)]);
      } else if Next().TAmpersand? {
        pos := pos + 1;
        if !Next().TIdent? { return; }
        var v := FindVariable(blocks, names.funcs, b, Next().name);
        assert v == Lookup(Sc(b), Next().name) by { LookupIs(Sc(b), Next().name); }
        if v.None? { return; }
        ghost var lv;
        var size, isReference, tsize;
        ok, size, isReference, tsize, lv := ReadLValue(v.value, p, b);
        o := AddressOf(lv);
        AddressCode(lv, p);
      } else if Next().TOpBracket? {
        pos := pos + 1;
        ghost var e;
        ok, e := ReadExpression(p, b);
        if !ok { return; }
        ok := false;
        if !Next().TClBracket? { return; }
        pos := pos + 1;
        o := Paren(e, neg);
        EmitNegated(neg, p);
        ParenCode(e, neg, p);
        Regroup(old(il), CExpr(e, p), Negated(neg, p));
        ok := true;
      } else if Next().TPlusPlus? {
        pos := pos + 1;
        ok, o := ReadNamed(Some(Add), neg, p, b);
      } else if Next().TMinusMinus? {
        pos := pos + 1;
        ok, o := ReadNamed(Some(Sub), neg, p, b);
      } else if Next().TIdent? {
        ok, o := ReadNamed(None, neg, p, b);
      }
    }

    // ----- the operator stack -----

    /** The stack's operator is applied to the two values on top of the value stack. */
    method EmitApply(op: BinaryOp, p: nat)
      modifies `il
      ensures il == old(il) + Apply(op, p)
    {
      EmitAll(Ins(Pop, p + 1), Ins(Pop, p));
      Emit(Ins2(op, p, p + 1));
    }

    /** Operators on the stack that bind at least as tightly as `op` are applied. */
    method ReduceStack(stack: array<BinaryOp>, height: nat, op: BinaryOp, p: nat) returns (idx: nat)
      requires 0 < height <= stack.Length
      modifies `il
      ensures idx <= height && stack[..idx] == Reduced(stack[..height], op)
      ensures il == old(il) + CReduce(stack[..height], op, p)
    {
      hide Priority, Apply, Reduced, CReduce;
      idx := height;
      var same := false;
      ghost var ops := stack[..height];
      assert ops[..height] == ops;
      while idx > 0 && !same
        invariant idx <= height && stack[..height] == ops && Reduced(ops[..idx], op) == Reduced(ops, op)
        invariant il + CReduce(ops[..idx], op, p) == old(il) + CReduce(ops, op, p)
        invariant same ==> idx > 0 && Priority(ops[idx - 1]) < Priority(op)
        decreases idx, !same
      {
        var stackOp := stack[idx - 1];
        assert stackOp == ops[idx - 1];
        if Priority(stackOp) >= Priority(op) {
          assert ops[..idx][..idx - 1] == ops[..idx - 1];
          ReduceMore(ops[..idx], op, p, il);
          EmitApply(stackOp, p);
          Emit(Ins(Push, p));
          idx := idx - 1;
        } else {
          same := true;
        }
      }
      ReduceDone(ops[..idx], op, p);
      assert il == il + CReduce(ops[..idx], op, p);
      assert stack[..idx] == ops[..idx];
    }

    /** All operators left are applied; the loop only ends by its return. */
    method UnwindStack(stack: array<BinaryOp>, height: nat, p: nat)
      requires 0 < height <= stack.Length
      modifies `il
      ensures il == old(il) + CUnwind(stack[..height], p)
    {
      hide Apply;
      var idx := height;
      while true
        invariant 0 < idx <= height
        invariant il + CUnwind(stack[..idx], p) == old(il) + CUnwind(stack[..height], p)
        decreases idx
      {
        var op := stack[idx - 1];
        assert stack[..idx][..idx - 1] == stack[..idx - 1];
        if idx == 1 {
          EmitApply(op, p);
          return;
        }
        assert il + CUnwind(stack[..idx], p) == il + Apply(op, p) + [Ins(Push, p)] + CUnwind(stack[..idx - 1], p);
        EmitApply(op, p);
        Emit(Ins(Push, p));
        idx := idx - 1;
      }
    }

    /** One more operator with its operand.  The stack always has strictly increasing priorities, so four of its ten
        places are enough. */
    method ReadTerm(stack: array<BinaryOp>, height: nat, op: BinaryOp, p: nat, b: nat)
      returns (ok: bool, idx: nat, ghost o: Operand)
      requires pos <= |ts| && 0 < height <= 4 && stack.Length == 10 && ExprCorrect.Increasing(stack[..height])
      modifies `pos, `il, stack
      ensures ok <==> POperand(Sc(b), ts, old(pos)).Some?
      ensures ok ==> POperand(Sc(b), ts, old(pos)) == Some(Parse(o, pos))
      ensures ok ==> il == old(il) + (CReduce(old(stack[..height]), op, p) + CTerm(Term(op, o), p) + [Ins(Push, p)])
      ensures 0 < idx <= 4 && stack[..idx] == Reduced(old(stack[..height]), op) + [op]
      ensures ExprCorrect.Increasing(stack[..idx])
      decreases |ts| - pos, 7
    {
      hide POperand, CReduce, Reduced, CTerm, COperand, Priority, ExprCorrect.Increasing;
      ghost var ops := stack[..height];
      idx := ReduceStack(stack, height, op, p);
      ExprCorrect.ReducedIncreasing(ops, op);
      stack[idx] := op;
      idx := idx + 1;
      assert stack[..idx] == Reduced(ops, op) + [op];
      ExprCorrect.StackBounded(stack[..idx]);
      ghost var before := il;
      ok, o := ReadOperand(p, b);
      if ok {
        Emit(Ins(Push, p));
        TermCode(Term(op, o), p);
        assert il == before + CTerm(Term(op, o), p) + [Ins(Push, p)];
      }
    }

    /** The operators behind the first two operands. */
    method ReadChain(first: BinaryOp, next: BinaryOp, p: nat, b: nat) returns (ok: bool, ghost rest: seq<Term>)
      requires 0 < pos <= |ts| && Operator(Peek(ts, pos - 1)) == Some(next)
      modifies `pos, `il
      ensures ok <==> PTerms(Sc(b), ts, old(pos) - 1).Some?
      ensures ok ==>
                PTerms(Sc(b), ts, old(pos) - 1) == Some(Parse(rest, pos)) && il == old(il) + CChain([first], rest, p)
      ensures ok ==> rest != []
      decreases |ts| - pos, 8
    {
      hide PTerms, POperand, Prepend, CSteps, OpsAfter, CReduce, Reduced, CTerm, CChain, CUnwind, Operator,
        ExprCorrect.Increasing;
      var stack := new BinaryOp[10];
      stack[0] := first;
      IncreasingOne(first);
      var idx := 1;
      var op := Some(next);
      rest := [];
      ghost var sc, at, start := Sc(b), pos - 1, il;
      ghost var goal := PTerms(sc, ts, at);
      PrependNone(goal);
      StepsNone([first], p);
      assert stack[..idx] == [first];
      while op.Some?
        invariant at <= pos <= |ts| && op == Operator(Peek(ts, at)) && pos == (if op.Some? then at + 1 else at)
        invariant old(pos) - 1 <= at && Prepend(rest, PTerms(sc, ts, at)) == goal && Sc(b) == sc
        invariant 0 < idx <= 4 && stack[..idx] == OpsAfter([first], rest) && ExprCorrect.Increasing(stack[..idx])
        invariant il == start + CSteps([first], rest, p) && (rest == [] ==> op.Some?)
        decreases |ts| - at
      {
        TermsStep(sc, ts, at, rest);
        ghost var o;
        ok, idx, o := ReadTerm(stack, idx, op.value, p, b);
        if !ok { return; }
        ghost var t := Term(op.value, o);
        StepsMore([first], rest, t, p);
        Regroup(start, CSteps([first], rest, p),
                CReduce(OpsAfter([first], rest), t.op, p) + CTerm(t, p) + [Ins(Push, p)]);
        rest := rest + [t];
        at := pos;
        op := Operator(Next());
        if op.Some? {
          OperatorThere(ts, pos);
          pos := pos + 1;
        }
      }
      TermsEnd(sc, ts, at, rest);
      UnwindStack(stack, idx, p);
      StepsThenUnwind([first], rest, p);
      Regroup(start, CSteps([first], rest, p), CUnwind(OpsAfter([first], rest), p));
      ok := true;
    }

    method ReadExpression(p: nat, b: nat) returns (ok: bool, ghost e: Expr)
      requires pos <= |ts|
      modifies `pos, `il
      ensures ok <==> PExpr(Sc(b), ts, old(pos)).Some?
      ensures ok ==> PExpr(Sc(b), ts, old(pos)) == Some(Parse(e, pos)) && il == old(il) + CExpr(e, p)
      ensures ok ==> ExprCorrect.Computes(il[|old(il)|..], e, p)
      decreases |ts| - pos, 9
    {
      hide PExpr, CExpr, ExprCorrect.Computes;
      ok, e := ReadWhole(p, b);
      if ok { ExprCorrect.AppendedComputes(old(il), il, e, p); }
    }

    /** Operands and operators, up to what is neither. */
    method ReadWhole(p: nat, b: nat) returns (ok: bool, ghost e: Expr)
      requires pos <= |ts|
      modifies `pos, `il
      ensures ok <==> PExpr(Sc(b), ts, old(pos)).Some?
      ensures ok ==> PExpr(Sc(b), ts, old(pos)) == Some(Parse(e, pos)) && il == old(il) + CExpr(e, p)
      decreases |ts| - pos, 8
    {
      hide POperand, COperand, CChain, Operator;
      e := Expr(Num(0, false, Character), []);
      ghost var first, second, rest;
      ok, first := ReadOperand(p, b);
      if !ok { return; }
      var op := Operator(Next());
      if op.None? {
        e := Expr(first, []);
        return;
      }
      OperatorThere(ts, pos);
      pos := pos + 1;
      ok, second := ReadOperand(p + 1, b);
      if !ok { return; }
      var next := Operator(Next());
      if next.None? {
        Emit(Ins2(op.value, p, p + 1));
        e := Expr(first, [Term(op.value, second)]);
        TermsEnd(Sc(b), ts, pos, []);
        PrependNone(PTerms(Sc(b), ts, pos));
        assert e.rest + [] == e.rest;
        assert il == old(il) + CExpr(e, p);
        return;
      }
      EmitAll(Ins(Push, p), Ins(Push, p + 1));
      OperatorThere(ts, pos);
      pos := pos + 1;
      ok, rest := ReadChain(op.value, next.value, p, b);
      if !ok { return; }
      e := Expr(first, [Term(op.value, second)] + rest);
      ExprCode(e, first, Term(op.value, second), rest, p);
    }

    // ----- statements -----

    ghost function Brk(): nat
      reads this`breaks
    {
      if breaks == [] then 0 else breaks[|breaks| - 1]
    }

    /** The target of a jump emitted behind `front`, once it is known. */
    method Patch(k: nat, target: nat, ghost op: Op, ghost front: seq<Instr>, ghost back: seq<Instr>)
      requires k == |front| && il == front + [Target(op, 0)] + back
      modifies `il
      ensures il == front + [Target(op, target)] + back
    {
      il := il[k := il[k].(int1 := target)];
    }

    method ReadCondition(p: nat, b: nat) returns (ok: bool, ghost e: Expr)
      requires pos <= |ts|
      modifies `pos, `il
      ensures ok <==> PCondition(Sc(b), ts, old(pos)).Some?
      ensures ok ==> PCondition(Sc(b), ts, old(pos)) == Some(Parse(e, pos)) && il == old(il) + CExpr(e, p)
    {
      hide PExpr, CExpr;
      ok, e := false, Expr(Num(0, false, Character), []);
      if !Next().TOpBracket? { return; }
      pos := pos + 1;
      ok, e := ReadExpression(p, b);
      if !ok { return; }
      ok := Next().TClBracket?;
      if ok {
        pos := pos + 1;
      }
    }

    /** Behind the left-hand side whose address is in register 0. */
    method ReadAssigned(size: int, increment: int, b: nat, ghost lv: LValue) returns (ok: bool, ghost a: Assign)
      requires pos <= |ts| && size == LvSize(lv) && increment == IncrementSize(lv)
      modifies `pos, `il
      ensures ok <==> PAssigned(Sc(b), lv, ts, old(pos)).Some?
      ensures ok ==> PAssigned(Sc(b), lv, ts, old(pos)) == Some(Parse(a, pos))
      ensures ok ==> a.lv == lv && il == old(il) + CAssigned(a)
    {
      hide PExpr, CExpr, PArgs, CPointerCall, LvSize, IncrementSize;
      ok, a := false, CallThrough(lv, []);
      ghost var e;
      if UpdateOperator(Next()).Some? {
        ok, a := ReadUpdate(size, increment, b, lv);
      } else if Next().TOpBracket? {
        Emit(Read(0, 0, size));
        ghost var args;
        ok, args := ReadPointerCall(0, b);
        if !ok { return; }
        a := CallThrough(lv, args);
        assert il == old(il) + CAssigned(a);
      } else if Next().TAssign? {
        pos := pos + 1;
        ok, e := ReadExpression(1, b);
        if !ok { return; }
        a := Store(lv, e);
        Emit(Write(1, 0, size));
        assert il == old(il) + CAssigned(a);
      }
    }

    /** `++`, `--` or a compound assignment; a pointer moves by whole elements. */
    method ReadUpdate(size: int, increment: int, b: nat, ghost lv: LValue) returns (ok: bool, ghost a: Assign)
      requires pos <= |ts| && UpdateOperator(Next()).Some? && size == LvSize(lv) && increment == IncrementSize(lv)
      modifies `pos, `il
      ensures ok <==> PAssigned(Sc(b), lv, ts, old(pos)).Some?
      ensures ok ==> PAssigned(Sc(b), lv, ts, old(pos)) == Some(Parse(a, pos))
      ensures ok ==> a.lv == lv && il == old(il) + CAssigned(a)
    {
      hide PExpr, CExpr, LvSize, IncrementSize, CAssigned;
      var t := Next();
      var op := UpdateOperator(t).value;
      ok, a := true, Update(lv, op, None);
      pos := pos + 1;
      Emit(Read(1, 0, size));
      if t.TPlusPlus? || t.TMinusMinus? {
        Emit(Const(2, increment));
      } else {
        ghost var e;
        ok, e := ReadExpression(2, b);
        if !ok { return; }
        a := Update(lv, op, Some(e));
        if increment != 1 {
          EmitAll(Const(3, increment), Ins2(Mul, 2, 3));
        }
      }
      assert il == old(il) + [Read(1, 0, size)] + CAmount(lv, a.amount);
      EmitAll(Ins2(op, 1, 2), Write(1, 0, size));
      UpdateIs(lv, op, a.amount, old(il));
    }

    method ReadAssignment(b: nat) returns (ok: bool, ghost a: Assign)
      requires pos <= |ts|
      modifies `pos, `il
      ensures ok <==> PAssign(Sc(b), ts, old(pos)).Some?
      ensures ok ==> PAssign(Sc(b), ts, old(pos)) == Some(Parse(a, pos)) && il == old(il) + CAssign(a)
    {
      hide PAssigned, PLValue, CAssign, CAssigned, CLValue, Lookup, LvSize, IsReference;
      ok, a := false, CallThrough(LValue("", 0, 0, 0, 0, []), []);
      if !Next().TIdent? { return; }
      var v := FindVariable(blocks, names.funcs, b, Next().name);
      assert v == Lookup(Sc(b), Next().name) by { LookupIs(Sc(b), Next().name); }
      if v.None? { return; }
      ghost var lv;
      var size, isReference, tsize;
      ok, size, isReference, tsize, lv := ReadLValue(v.value, 0, b);
      if !ok { return; }
      PLValueIs(Sc(b), v.value, ts, old(pos) + 1);
      ok, a := ReadAssigned(size, if v.value.isPointer != 0 then tsize else 1, b, lv);
      if ok {
        AssignCode(a);
        Regroup(old(il), CLValue(lv, 0), CAssigned(a));
      }
    }

    method ReadReturn(b: nat) returns (ok: bool, ghost s: Stmt)
      requires pos <= |ts| && b < |blocks|
      modifies `pos, `il
      ensures ok <==> PReturn(Sc(b), ts, old(pos)).Some?
      ensures ok ==> PReturn(Sc(b), ts, old(pos)) == Some(Parse(s, pos)) && il == old(il) + CStmt(s, |old(il)|, Brk())
    {
      hide PExpr, CExpr;
      ok, s := false, Empty;
      ghost var e;
      var f := blocks[b].func;
      if f.None? || f.value >= |names.funcs| { return; }
      var name := names.funcs[f.value].name;
      if Next().TSemicolon? {
        pos := pos + 1;
        s := ReturnFrom(name, None);
      } else {
        ok, e := ReadExpression(0, b);
        if !ok { return; }
        ok := false;
        if !Next().TSemicolon? { return; }
        pos := pos + 1;
        s := ReturnFrom(name, Some(e));
      }
      Emit(Named(Return, 0, name));
      ok := true;
      assert il == old(il) + CStmt(s, |old(il)|, Brk());
    }

    /** Behind a type's name: the first declarator, or the next one, whose initialiser is stored with the size of the
        first. */
    method ReadDeclarator(typeName: string) returns (r: Option<Var>)
      requires pos <= |ts|
      modifies `pos
      ensures pos <= |ts|
      ensures r.Some? <==> PDeclarator(typeName, ts, old(pos)).Some?
      ensures r.Some? ==> PDeclarator(typeName, ts, old(pos)) == Some(Parse(r.value, pos))
    {
      var isPointer, arraySize := 0, 0;
      if Next().TStar? {
        pos := pos + 1;
        isPointer := 1;
      }
      if !Next().TIdent? { return None; }
      var name := Next().name;
      pos := pos + 1;
      if Next().TOpSquare? {
        pos := pos + 1;
        if Next().TNumeric? {
          arraySize := ReadNumericConstant(Next().text);
          pos := pos + 1;
        } else {
          isPointer := isPointer + 1;
        }
        if !Next().TClSquare? { return None; }
        pos := pos + 1;
      }
      return Some(Var(typeName, name, isPointer, 0, arraySize, 0));
    }

    method AddLocal(b: nat, v: Var)
      requires b < |blocks|
      modifies `blocks
      ensures blocks == WithLocal(old(blocks), b, v)
    {
      blocks := blocks[b := blocks[b].(locals := blocks[b].locals + [v])];
    }

    /** One declarator with its initialiser, if it has one. */
    method ReadInit(t: TypeDef, size: Option<int>, b: nat) returns (ok: bool, size': int, ghost d: Declarator)
      requires pos <= |ts| && b < |blocks|
      modifies `pos, `il, `blocks
      ensures ok <==> PInit(old(Sc(b)), t, size, ts, old(pos)).Some?
      ensures ok ==> PInit(old(Sc(b)), t, size, ts, old(pos)) == Some(InitParse(size', d, pos, blocks))
      ensures ok ==> il == old(il) + CInits(InitsOf([d]))
    {
      hide PDeclarator, PExpr, CExpr;
      ok, size', d := false, 0, Declarator(FormAt(ts, pos), None);
      OneInit(d);
      var v := ReadDeclarator(t.name);
      if v.None? { return; }
      AddLocal(b, v.value);
      assert In(old(Sc(b)), blocks) == Sc(b);
      size' := if size.Some? then size.value
        else if v.value.isPointer != 0 || v.value.isFunction != 0 then PTR_SIZE else t.size;
      ok := true;
      if Next().TAssign? {
        pos := pos + 1;
        ghost var e;
        ok, e := ReadExpression(1, b);
        if !ok { return; }
        EmitAll(Named(GetVarAddr, 0, v.value.name), Write(1, 0, size'));
        d := d.(init := Some(Init(v.value.name, size', DeclaredSize(v.value, t.size), e)));
        OneInit(d);
        InitCode(d.init.value);
        assert il == old(il) + CInits(InitsOf([d]));
      }
    }

    method ReadDeclaration(t: TypeDef, b: nat) returns (ok: bool, ghost ds: seq<Declarator>)
      requires pos <= |ts| && b < |blocks|
      modifies `pos, `il, `blocks
      ensures ok <==> PDeclare(old(Sc(b)), t, ts, old(pos)).Some?
      ensures ok ==> PDeclare(old(Sc(b)), t, ts, old(pos)) == Some(Parsed(ds, pos, blocks))
      ensures ok ==> il == old(il) + CInits(InitsOf(ds))
    {
      hide PInit, PMoreInits, CInits, InitsOf, Prefix;
      ghost var goal := PDeclare(Sc(b), t, ts, pos);
      ghost var start := il;
      ghost var d;
      ds := [];
      var size;
      ok, size, d := ReadInit(t, None, b);
      if !ok { return; }
      ds := [d];
      PrefixIs(ds, PMoreInits(Sc(b), t, size, ts, pos));
      while Next().TComma?
        invariant pos <= |ts| && b < |blocks| && il == start + CInits(InitsOf(ds))
        invariant goal == Prefix(ds, PMoreInits(Sc(b), t, size, ts, pos))
        decreases |ts| - pos
      {
        MoreStep(Sc(b), t, size, ts, pos, ds);
        ghost var sc := Sc(b);
        pos := pos + 1;
        var size1;
        ok, size1, d := ReadInit(t, Some(size), b);
        if !ok { return; }
        assert In(sc, blocks) == Sc(b);
        InitsSplit(ds, [d]);
        InitsJoin(InitsOf(ds), InitsOf([d]));
        Regroup(start, CInits(InitsOf(ds)), CInits(InitsOf([d])));
        ds := ds + [d];
      }
      MoreEnd(Sc(b), t, size, ts, pos, ds);
      ok := Next().TSemicolon?;
      if ok {
        pos := pos + 1;
      }
    }

    method ReadIf(b: nat) returns (ok: bool, ghost s: Stmt)
      requires pos <= |ts| && b < |blocks| && il != []
      modifies this
      ensures ok <==> PIf(old(Sc(b)), old(breaks) != [], ts, old(pos)).Some?
      ensures ok ==> PIf(old(Sc(b)), old(breaks) != [], ts, old(pos)) == Some(Parsed(s, pos, blocks))
      ensures ok ==> breaks == old(breaks) && il == old(il) + CStmt(s, |old(il)|, old(Brk()))
      decreases |ts| - pos, 0
    {
      hide PCondition, CExpr, PStmt, CStmt;
      s := Empty;
      ghost var c, t, e;
      ghost var start, brk := il, Brk();
      ok, c := ReadCondition(0, b);
      if !ok { return; }
      ghost var front := il;
      var falseJump := |il|;
      Emit(Target(Jz, 0));
      ok, t := ReadStatement(b);
      if !ok { return; }
      ghost var thn := CStmt(t, |front| + 1, brk);
      assert il == front + [Target(Jz, 0)] + thn;
      if Next().TElse? {
        pos := pos + 1;
        assert In(old(Sc(b)), blocks) == Sc(b);
        ok, e := ReadElse(b, falseJump, front, thn);
        s := If(c, t, Some(e));
        if ok {
          IfElseCode(s, start, brk, il);
        }
      } else {
        Emit(Ins(Label, 0));
        Patch(falseJump, |il| - 1, Jz, front, thn + [Ins(Label, 0)]);
        s := If(c, t, None);
        IfThenCode(s, start, brk, il);
      }
    }

    /** The other branch, with the jump around it and both jumps patched. */
    method ReadElse(b: nat, falseJump: nat, ghost front: seq<Instr>, ghost thn: seq<Instr>)
      returns (ok: bool, ghost e: Stmt)
      requires pos <= |ts| && b < |blocks| && falseJump == |front| && il == front + [Target(Jz, 0)] + thn
      modifies this
      ensures ok <==> PStmt(old(Sc(b)), old(breaks) != [], ts, old(pos)).Some?
      ensures ok ==> PStmt(old(Sc(b)), old(breaks) != [], ts, old(pos)) == Some(Parsed(e, pos, blocks))
      ensures ok ==> breaks == old(breaks)
      ensures ok ==> var after := |old(il)|;
                     var els := CStmt(e, after + 2, old(Brk()));
                     il == (front + [Target(Jz, after + 1)] + thn) + [Target(Jump, after + 2 + |els|)]
                           + ([Ins(Label, 0)] + els + [Ins(Label, 0)])
      decreases |ts| - pos, 3
    {
      hide PStmt, CStmt;
      ghost var brk := Brk();
      var trueJump := |il|;
      EmitAll(Target(Jump, 0), Ins(Label, 0));
      Patch(falseJump, |il| - 1, Jz, front, thn + [Target(Jump, 0), Ins(Label, 0)]);
      ghost var front2 := front + [Target(Jz, trueJump + 1)] + thn;
      assert il == front2 + [Target(Jump, 0)] + [Ins(Label, 0)];
      ok, e := ReadStatement(b);
      if !ok { return; }
      ghost var els := CStmt(e, trueJump + 2, brk);
      Emit(Ins(Label, 0));
      assert il == front2 + [Target(Jump, 0)] + ([Ins(Label, 0)] + els + [Ins(Label, 0)]);
      Patch(trueJump, |il| - 1, Jump, front2, [Ins(Label, 0)] + els + [Ins(Label, 0)]);
    }

    method ReadWhile(b: nat) returns (ok: bool, ghost s: Stmt)
      requires pos <= |ts| && b < |blocks| && il != []
      modifies this
      ensures ok <==> PWhile(old(Sc(b)), old(breaks) != [], ts, old(pos)).Some?
      ensures ok ==> PWhile(old(Sc(b)), old(breaks) != [], ts, old(pos)) == Some(Parsed(s, pos, blocks))
      ensures ok ==> breaks == old(breaks) && il == old(il) + CStmt(s, |old(il)|, old(Brk()))
      decreases |ts| - pos, 0
    {
      hide PCondition, CExpr, PStmt, CStmt;
      s := Empty;
      ghost var c, t;
      ghost var before, brk := il, Brk();
      var start := |il|;
      Emit(Ins(Label, 0));
      ok, c := ReadCondition(0, b);
      if !ok { return; }
      ghost var front := il;
      var falseJump := |il|;
      Emit(Target(Jz, 0));
      ok, t := ReadStatement(b);
      if !ok { return; }
      ghost var inner := CStmt(t, |front| + 1, brk);
      EmitAll(Target(Jump, start), Ins(Label, 0));
      assert il == front + [Target(Jz, 0)] + (inner + [Target(Jump, start), Ins(Label, 0)]);
      Patch(falseJump, |il| - 1, Jz, front, inner + [Target(Jump, start), Ins(Label, 0)]);
      s := While(c, t);
      WhileCode(s, before, brk, il);
    }

    method ReadDo(b: nat) returns (ok: bool, ghost s: Stmt)
      requires pos <= |ts| && b < |blocks| && il != []
      modifies this
      ensures ok <==> PDo(old(Sc(b)), old(breaks) != [], ts, old(pos)).Some?
      ensures ok ==> PDo(old(Sc(b)), old(breaks) != [], ts, old(pos)) == Some(Parsed(s, pos, blocks))
      ensures ok ==> breaks == old(breaks) && il == old(il) + CStmt(s, |old(il)|, old(Brk()))
      decreases |ts| - pos, 6
    {
      hide PCondition, CExpr, PStmt, CStmt;
      s := Empty;
      ghost var c, t;
      ghost var before, brk := il, Brk();
      var start := |il|;
      Emit(Ins(Label, 0));
      ok, t := ReadStatement(b);
      if !ok { return; }
      ok := false;
      if !Next().TWhile? { return; }
      pos := pos + 1;
      assert In(old(Sc(b)), blocks) == Sc(b);
      ok, c := ReadCondition(0, b);
      if !ok { return; }
      Emit(Target(Jnz, start));
      ok := Next().TSemicolon?;
      if ok {
        pos := pos + 1;
        s := DoWhile(t, c);
        DoCode(s, before, brk, il);
      }
    }

    method ReadOptAssign(close: Token, b: nat) returns (ok: bool, ghost a: Option<Assign>)
      requires pos <= |ts| && !close.TEof?
      modifies `pos, `il
      ensures ok <==> POptAssign(Sc(b), close, ts, old(pos)).Some?
      ensures ok ==> POptAssign(Sc(b), close, ts, old(pos)) == Some(Parse(a, pos)) && il == old(il) + COptAssign(a)
    {
      hide PAssign, CAssign;
      ok, a := true, None;
      if Next() == close {
        pos := pos + 1;
      } else {
        ghost var x;
        ok, x := ReadAssignment(b);
        if !ok { return; }
        a := Some(x);
        ok := Next() == close;
        if ok {
          pos := pos + 1;
        }
      }
    }

    /** The condition of a for loop; without one it is always true. */
    method ReadTest(b: nat) returns (ok: bool, ghost e: Option<Expr>)
      requires pos <= |ts|
      modifies `pos, `il
      ensures ok <==> POptExpr(Sc(b), ts, old(pos)).Some?
      ensures ok ==> POptExpr(Sc(b), ts, old(pos)) == Some(Parse(e, pos)) && il == old(il) + CTest(e)
    {
      hide PExpr, CExpr;
      ok, e := true, None;
      if Next().TSemicolon? {
        pos := pos + 1;
        Emit(Const(0, 1));
      } else {
        ghost var x;
        ok, x := ReadExpression(0, b);
        if !ok { return; }
        e := Some(x);
        ok := Next().TSemicolon?;
        if ok {
          pos := pos + 1;
        }
      }
    }

    /** Behind the test: the two jumps to be patched, and the increment, which goes back to the test. */
    method ReadIncrement(conditionStart: nat, b: nat) returns (ok: bool, ghost step: Option<Assign>)
      requires pos <= |ts|
      modifies `pos, `il
      ensures ok <==> POptAssign(Sc(b), TClBracket, ts, old(pos)).Some?
      ensures ok ==> POptAssign(Sc(b), TClBracket, ts, old(pos)) == Some(Parse(step, pos))
      ensures ok ==> il == old(il) + [Target(Jz, 0), Target(Jump, 0)] + [Ins(Label, 0)] + COptAssign(step)
                           + [Target(Jump, conditionStart)]
    {
      hide POptAssign, COptAssign;
      EmitAll(Target(Jz, 0), Target(Jump, 0));
      Emit(Ins(Label, 0));
      ok, step := ReadOptAssign(TClBracket, b);
      if !ok { return; }
      Emit(Target(Jump, conditionStart));
    }

    /** A for loop up to its closing bracket, with two jumps still to be patched. */
    method ReadForHead(b: nat) returns (ok: bool, jumpOut: nat, increment: nat, ghost h: ForHead)
      requires pos <= |ts|
      modifies `pos, `il
      ensures ok <==> PForHead(Sc(b), ts, old(pos)).Some?
      ensures ok ==> PForHead(Sc(b), ts, old(pos)) == Some(Parse(h, pos))
      ensures ok ==> jumpOut == |old(il)| + |COptAssign(h.init)| + 1 + |CTest(h.test)| && increment == jumpOut + 2
      ensures ok ==> il == old(il) + COptAssign(h.init) + [Ins(Label, 0)] + CTest(h.test) + [Target(Jz, 0)]
                           + [Target(Jump, 0)] + Between(h, |old(il)|)
    {
      hide POptAssign, POptExpr, COptAssign, CTest, Between;
      ok, jumpOut, increment, h := false, 0, 0, ForHead(None, None, None);
      ghost var init, test, step;
      if !Next().TOpBracket? { return; }
      pos := pos + 1;
      ok, init := ReadOptAssign(TSemicolon, b);
      if !ok { return; }
      var conditionStart := |il|;
      Emit(Ins(Label, 0));
      ok, test := ReadTest(b);
      if !ok { return; }
      jumpOut, increment := |il|, |il| + 2;
      ok, step := ReadIncrement(conditionStart, b);
      if !ok { return; }
      h := ForHead(init, test, step);
      HeadCode(h, old(il));
    }

    method ReadFor(b: nat) returns (ok: bool, ghost s: Stmt)
      requires pos <= |ts| && b < |blocks| && il != []
      modifies this
      ensures ok <==> PFor(old(Sc(b)), old(breaks) != [], ts, old(pos)).Some?
      ensures ok ==> PFor(old(Sc(b)), old(breaks) != [], ts, old(pos)) == Some(Parsed(s, pos, blocks))
      ensures ok ==> breaks == old(breaks) && il == old(il) + CStmt(s, |old(il)|, old(Brk()))
      decreases |ts| - pos, 0
    {
      hide PForHead, COptAssign, CTest, PStmt, CStmt;
      s := Empty;
      ghost var h, t;
      ghost var start, brk := il, Brk();
      var jumpOut, increment;
      ok, jumpOut, increment, h := ReadForHead(b);
      if !ok { return; }
      ghost var front := start + COptAssign(h.init) + [Ins(Label, 0)] + CTest(h.test);
      ghost var between := Between(h, |start|);
      var bodyStart := |il|;
      Emit(Ins(Label, 0));
      Patch(jumpOut + 1, bodyStart, Jump, front + [Target(Jz, 0)], between + [Ins(Label, 0)]);
      ok, t := ReadStatement(b);
      if !ok { return; }
      ghost var inner := CStmt(t, bodyStart + 1, brk);
      EmitAll(Target(Jump, increment), Ins(Label, 0));
      ghost var back :=
        [Target(Jump, bodyStart)] + between + [Ins(Label, 0)] + inner + [Target(Jump, increment), Ins(Label, 0)];
      Patch(jumpOut, |il| - 1, Jz, front, back);
      s := For(h.init, h.test, h.step, t);
      ForCodeIs(s, h, start, brk, il);
    }

    /** A block, with its own entry in the table. */
    method ReadBlock(b: nat) returns (ok: bool, ghost s: Stmt)
      requires pos <= |ts| && b < |blocks| && il != []
      modifies this
      ensures ok <==> PBlock(old(Sc(b)), old(breaks) != [], ts, old(pos)).Some?
      ensures ok ==> PBlock(old(Sc(b)), old(breaks) != [], ts, old(pos)) == Some(Parsed(s, pos, blocks))
      ensures ok ==> breaks == old(breaks) && il == old(il) + CStmt(s, |old(il)|, old(Brk()))
      decreases |ts| - pos, 0
    {
      hide PStmts, CStmts;
      ok, s := false, Empty;
      ghost var ss;
      ghost var start, brk := il, Brk();
      var id := |blocks|;
      blocks := blocks + [Block([], Some(b), blocks[b].func, 0)];
      Emit(Marker(BlockStart, id));
      if !Next().TOpCurly? { return; }
      pos := pos + 1;
      ok, ss := ReadStatements(id);
      if !ok { return; }
      Emit(Marker(BlockEnd, id));
      s := Compound(id, ss);
      assert il == start + CStmt(s, |start|, brk);
    }

    /** A function's entry point, its body and its exit point. */
    method ReadFunctionBody(f: nat) returns (ok: bool, entry: nat, exit: nat, ghost body: seq<Stmt>)
      requires pos <= |ts| && f < |names.funcs| && breaks == []
      modifies this
      ensures ok <==> PFunctionBody(names, old(blocks), f, ts, old(pos)).Some?
      ensures ok ==> PFunctionBody(names, old(blocks), f, ts, old(pos)) == Some(Parsed(body, pos, blocks))
      ensures ok ==> breaks == [] && entry == |old(il)| && exit == |il| - 1
      ensures ok ==> il == old(il) + CFunction(names.funcs[f].name, |old(blocks)|, body, |old(il)|)
    {
      hide PStmts, CStmts;
      ok, exit, body := false, 0, [];
      ghost var start := il;
      var id, name := |blocks|, names.funcs[f].name;
      entry := |il|;
      Emit(Named(EntryPoint, 0, name));
      blocks := blocks + [Block([], None, Some(f), 0)];
      Emit(Marker(BlockStart, id));
      if !Next().TOpCurly? { return; }
      pos := pos + 1;
      ok, body := ReadStatements(id);
      if !ok { return; }
      Emit(Marker(BlockEnd, id));
      Emit(Named(ExitPoint, 0, name));
      exit := |il| - 1;
      assert il == start + CFunction(name, id, body, |start|);
    }

    method ReadStatements(b: nat) returns (ok: bool, ghost ss: seq<Stmt>)
      requires pos <= |ts| && b < |blocks| && il != []
      modifies this
      ensures ok <==> PStmts(old(Sc(b)), old(breaks) != [], ts, old(pos)).Some?
      ensures ok ==> PStmts(old(Sc(b)), old(breaks) != [], ts, old(pos)) == Some(Parsed(ss, pos, blocks))
      ensures ok ==> breaks == old(breaks) && il == old(il) + CStmts(ss, |old(il)|, old(Brk()))
      decreases |ts| - pos, 3
    {
      hide PStmt, PStmts, CStmt, CStmts, Prefix;
      ss := [];
      ghost var s;
      ghost var start, brk, inSwitch := il, Brk(), breaks != [];
      ghost var goal := PStmts(Sc(b), inSwitch, ts, pos);
      PrefixNone(goal);
      StmtsNone(|start|, brk);
      while !Next().TClCurly?
        invariant old(pos) <= pos <= |ts| && b < |blocks| && il != [] && breaks == old(breaks)
        invariant goal == Prefix(ss, PStmts(Sc(b), inSwitch, ts, pos))
        invariant il == start + CStmts(ss, |start|, brk)
        decreases |ts| - pos
      {
        StmtsStep(Sc(b), inSwitch, ts, pos, ss);
        ghost var sc, here := Sc(b), |il|;
        ok, s := ReadStatement(b);
        if !ok { return; }
        assert In(sc, blocks) == Sc(b);
        StmtsMore(ss, s, |start|, brk);
        Regroup(start, CStmts(ss, |start|, brk), CStmt(s, here, brk));
        ss := ss + [s];
      }
      StmtsEnd(Sc(b), inSwitch, ts, pos, ss);
      pos := pos + 1;
      ok := true;
    }

    /** A declaration, a call or an assignment. */
    method ReadPlain(b: nat) returns (ok: bool, ghost s: Stmt)
      requires pos <= |ts| && b < |blocks|
      modifies `pos, `il, `blocks
      ensures ok <==> PPlain(old(Sc(b)), ts, old(pos)).Some?
      ensures ok ==> PPlain(old(Sc(b)), ts, old(pos)) == Some(Parsed(s, pos, blocks))
      ensures ok ==> forall brk: nat :: il == old(il) + CStmt(s, |old(il)|, brk)
    {
      hide PDeclare, PAssign, PArgs, CInits, InitsOf, CAssign, CArgs, FindType, FindFunction;
      ok, s := false, Empty;
      if !Next().TIdent? { return; }
      var name := Next().name;
      var t := FindType(names.types, name);
      var f := FindFunction(names.funcs, name);
      if t.Some? {
        ghost var ds;
        pos := pos + 1;
        ok, ds := ReadDeclaration(t.value, b);
        s := Declare(name, ds);
        return;
      }
      if f.Some? {
        ghost var args;
        var called;
        pos := pos + 1;
        ok, called, args := ReadFunctionCall(name, 0, b);
        if !ok { return; }
        s := Evaluate(if called then Call(name, args, false) else FunctionAddress(name, false));
        PlainCall(name, args);
      } else {
        ghost var a;
        ok, a := ReadAssignment(b);
        if !ok { return; }
        s := Assignment(a);
      }
      ok := Next().TSemicolon?;
      if ok {
        pos := pos + 1;
      }
    }

    /** What may follow a `break`. */
    method ReadTail(b: nat) returns (ok: bool, ghost s: Stmt)
      requires pos <= |ts| && b < |blocks| && il != []
      modifies this
      ensures ok <==> PTail(old(Sc(b)), old(breaks) != [], ts, old(pos)).Some?
      ensures ok ==> PTail(old(Sc(b)), old(breaks) != [], ts, old(pos)) == Some(Parsed(s, pos, blocks))
      ensures ok ==> breaks == old(breaks) && il == old(il) + CStmt(s, |old(il)|, old(Brk()))
      decreases |ts| - pos, 1
    {
      hide PFor, PDo, PPlain, CStmt;
      s := Empty;
      if Next().TFor? {
        pos := pos + 1;
        ok, s := ReadFor(b);
      } else if Next().TDo? {
        pos := pos + 1;
        ok, s := ReadDo(b);
      } else if Next().TSemicolon? {
        pos := pos + 1;
        ok := true;
        EmptyCode(|il|, Brk());
      } else {
        ok, s := ReadPlain(b);
      }
    }

    method ReadStatement(b: nat) returns (ok: bool, ghost s: Stmt)
      requires pos <= |ts| && b < |blocks| && il != []
      modifies this
      ensures ok <==> PStmt(old(Sc(b)), old(breaks) != [], ts, old(pos)).Some?
      ensures ok ==> PStmt(old(Sc(b)), old(breaks) != [], ts, old(pos)) == Some(Parsed(s, pos, blocks))
      ensures ok ==> breaks == old(breaks) && il == old(il) + CStmt(s, |old(il)|, old(Brk()))
      decreases |ts| - pos, 2
    {
      hide PBlock, PReturn, PIf, PWhile, PSwitch, PTail, CStmt;
      ok, s := false, Empty;
      if Next().TOpCurly? {
        ok, s := ReadBlock(b);
      } else if Next().TReturn? {
        pos := pos + 1;
        ok, s := ReadReturn(b);
      } else if Next().TIf? {
        pos := pos + 1;
        ok, s := ReadIf(b);
      } else if Next().TWhile? {
        pos := pos + 1;
        ok, s := ReadWhile(b);
      } else if Next().TSwitch? {
        pos := pos + 1;
        ok, s := ReadSwitch(b);
      } else if Next().TBreak? {
        if breaks == [] { return; }
        pos := pos + 1;
        ok, s := ReadBreak(b);
      } else {
        ok, s := ReadTail(b);
      }
    }

    /** The jump of a break, and what follows it. */
    method ReadBreak(b: nat) returns (ok: bool, ghost s: Stmt)
      requires pos <= |ts| && b < |blocks| && il != [] && breaks != []
      modifies this
      ensures ok <==> PTail(old(Sc(b)), true, ts, old(pos)).Some?
      ensures ok ==> s.Break? && PTail(old(Sc(b)), true, ts, old(pos)) == Some(Parsed(s.after, pos, blocks))
      ensures ok ==> breaks == old(breaks) && il == old(il) + CStmt(s, |old(il)|, old(Brk()))
      decreases |ts| - pos, 2
    {
      hide PTail, CStmt;
      ghost var start, brk := il, Brk();
      Emit(Target(Jump, breaks[|breaks| - 1]));
      ghost var after;
      ok, after := ReadTail(b);
      s := Break(after);
      BreakCode(after, |start|, brk);
      Regroup(start, [Target(Jump, brk)], CStmt(after, |start| + 1, brk));
    }

    /** Statements up to the next label or the end of the switch. */
    method ReadClauseBody(b: nat) returns (ok: bool, ghost ss: seq<Stmt>)
      requires pos <= |ts| && b < |blocks| && il != [] && breaks != []
      modifies this
      ensures ok <==> PClauseBody(old(Sc(b)), ts, old(pos)).Some?
      ensures ok ==> PClauseBody(old(Sc(b)), ts, old(pos)) == Some(Parsed(ss, pos, blocks))
      ensures ok ==> breaks == old(breaks) && il == old(il) + CStmts(ss, |old(il)|, old(Brk()))
      decreases |ts| - pos, 3
    {
      hide PStmt, PClauseBody, CStmt, CStmts, Prefix;
      ss := [];
      ghost var s;
      ghost var start, brk := il, Brk();
      ghost var goal := PClauseBody(Sc(b), ts, pos);
      PrefixNone(goal);
      StmtsNone(|start|, brk);
      while !StartsClause(Next()) && !Next().TClCurly?
        invariant old(pos) <= pos <= |ts| && b < |blocks| && il != [] && breaks == old(breaks)
        invariant goal == Prefix(ss, PClauseBody(Sc(b), ts, pos))
        invariant il == start + CStmts(ss, |start|, brk)
        decreases |ts| - pos
      {
        BodyStep(Sc(b), ts, pos, ss);
        ghost var sc, here := Sc(b), |il|;
        ok, s := ReadStatement(b);
        if !ok { return; }
        assert In(sc, blocks) == Sc(b);
        StmtsMore(ss, s, |start|, brk);
        Regroup(start, CStmts(ss, |start|, brk), CStmt(s, here, brk));
        ss := ss + [s];
      }
      BodyEnd(Sc(b), ts, pos, ss);
      ok := true;
    }

    /** A label, None for the default, and the statements behind it. */
    method ReadClause(b: nat) returns (ok: bool, value: Option<int>, ghost c: Clause)
      requires pos <= |ts| && b < |blocks| && il != [] && breaks != []
      modifies this
      ensures ok <==> PClause(old(Sc(b)), ts, old(pos)).Some?
      ensures ok ==> PClause(old(Sc(b)), ts, old(pos)) == Some(Parsed(c, pos, blocks)) && c.tag == value
      ensures ok ==> breaks == old(breaks) && il == old(il) + CClause(c, |old(il)|, old(Brk()))
      decreases |ts| - pos, 4
    {
      hide PClauseBody, CStmts, FindConstant;
      ok, value, c := false, None, Clause(DefaultCase, []);
      ghost var head := DefaultCase;
      ghost var start, brk := il, Brk();
      if !StartsClause(Next()) { return; }
      if Next().TDefault? {
        pos := pos + 1;
      } else {
        pos := pos + 1;
        if Next().TNumeric? {
          var n := ReadNumericConstant(Next().text);
          value, head := Some(n), CaseOf(n, Digits(Next().text, false));
        } else if Next().TIdent? {
          value := FindConstant(names.constants, Next().name);
          if value.Some? { head := CaseOf(value.value, Constant(Next().name)); }
        }
        if value.None? { return; }
        pos := pos + 1;
      }
      Emit(Ins(Label, 0));
      if !Next().TColon? { return; }
      pos := pos + 1;
      ghost var ss;
      ok, ss := ReadClauseBody(b);
      if !ok { return; }
      c := Clause(head, ss);
      Regroup(start, [Ins(Label, 0)], CStmts(ss, |start| + 1, brk));
    }

    /** All clauses up to the closing brace, with the case values, the places of their labels, and the place of the last
        default label, or 0. */
    method ReadClauses(b: nat)
      returns (ok: bool, values: seq<int>, places: seq<nat>, defaultAt: nat, ghost cs: seq<Clause>)
      requires pos <= |ts| && b < |blocks| && il != [] && breaks != []
      modifies this
      ensures ok <==> PClauses(old(Sc(b)), ts, old(pos)).Some?
      ensures ok ==> PClauses(old(Sc(b)), ts, old(pos)) == Some(Parsed(cs, pos, blocks))
      ensures ok ==> breaks == old(breaks) && il == old(il) + CClauses(cs, |old(il)|, old(Brk()))
      ensures ok ==> |values| == |places| && CheckList(values, places) == CChecks(cs, |old(il)|, old(Brk()))
      ensures ok ==> DefaultAt(cs, |old(il)|, old(Brk())) == if defaultAt != 0 then Some(defaultAt) else None
      decreases |ts| - pos, 5
    {
      hide PClause, PClauses, CClause, CClauses, CChecks, DefaultAt, CheckList, Prefix;
      ok, values, places, defaultAt, cs := false, [], [], 0, [];
      ghost var c;
      ghost var start, brk := il, Brk();
      ghost var goal := PClauses(Sc(b), ts, pos);
      PrefixNone(goal);
      ClausesNone(|start|, brk);
      while StartsClause(Next())
        invariant old(pos) <= pos <= |ts| && b < |blocks| && il != [] && breaks == old(breaks)
        invariant goal == Prefix(cs, PClauses(Sc(b), ts, pos))
        invariant il == start + CClauses(cs, |start|, brk)
        invariant |values| == |places| && CheckList(values, places) == CChecks(cs, |start|, brk)
        invariant DefaultAt(cs, |start|, brk) == if defaultAt != 0 then Some(defaultAt) else None
        decreases |ts| - pos
      {
        ClausesStep(Sc(b), ts, pos, cs);
        ghost var sc := Sc(b);
        var place := |il|;
        var value;
        ok, value, c := ReadClause(b);
        if !ok { return; }
        assert In(sc, blocks) == Sc(b);
        ClausesMore(cs, c, |start|, brk);
        ChecksMore(cs, c, |start|, brk);
        DefaultMore(cs, c, |start|, brk);
        Regroup(start, CClauses(cs, |start|, brk), CClause(c, place, brk));
        if value.Some? {
          CheckListMore(values, places, value.value, place);
          values, places := values + [value.value], places + [place];
        } else {
          defaultAt := place;
        }
        cs := cs + [c];
      }
      ClausesEnd(Sc(b), ts, pos, cs);
      ok := Next().TClCurly?;
      if ok {
        pos := pos + 1;
      }
    }

    /** Register 1 is compared with every case value. */
    method EmitChecks(values: seq<int>, places: seq<nat>, defaultAt: nat)
      requires |values| == |places|
      modifies `il
      ensures il == old(il) + CheckList(values, places) + (if defaultAt != 0 then [Target(Jump, defaultAt)] else [])
    {
      var i := 0;
      ghost var start := il;
      assert values[..0] == [] && places[..0] == [];
      while i < |values|
        invariant 0 <= i <= |values| && il == start + CheckList(values[..i], places[..i])
      {
        ghost var before := il;
        EmitAll(Const(0, values[i]), Ins2(Equals, 0, 1));
        Emit(Target(Jnz, places[i]));
        CheckListMore(values[..i], places[..i], values[i], places[i]);
        assert values[..i + 1] == values[..i] + [values[i]] && places[..i + 1] == places[..i] + [places[i]];
        assert il == before + [Const(0, values[i]), Ins2(Equals, 0, 1), Target(Jnz, places[i])];
        Regroup(start, CheckList(values[..i], places[..i]),
                [Const(0, values[i]), Ins2(Equals, 0, 1), Target(Jnz, places[i])]);
        i := i + 1;
      }
      assert values[..i] == values && places[..i] == places;
      if defaultAt != 0 {
        Emit(Target(Jump, defaultAt));
      }
    }

    method ReadSwitch(b: nat) returns (ok: bool, ghost s: Stmt)
      requires pos <= |ts| && b < |blocks| && il != []
      modifies this
      ensures ok <==> PSwitch(old(Sc(b)), ts, old(pos)).Some?
      ensures ok ==> PSwitch(old(Sc(b)), ts, old(pos)) == Some(Parsed(s, pos, blocks))
      ensures ok ==> breaks == old(breaks) && il == old(il) + CStmt(s, |old(il)|, old(Brk()))
      decreases |ts| - pos, 0
    {
      hide PCondition, PClauses, CExpr, CClauses, CChecks, DefaultAt, CheckList, CStmt, CDefault;
      s := Empty;
      ghost var c, cs;
      ghost var start, brk := il, Brk();
      ok, c := ReadCondition(1, b);
      if !ok { return; }
      ghost var front := il;
      var jumpToCheck, switchExit := |il|, |il| + 1;
      EmitAll(Target(Jump, 0), Target(Jump, 0));
      breaks := breaks + [switchExit];
      ok := false;
      if !Next().TOpCurly? { return; }
      pos := pos + 1;
      var values, places, defaultAt;
      ok, values, places, defaultAt, cs := ReadClauses(b);
      if !ok { return; }
      Emit(Ins(Label, 0));
      ghost var code := CClauses(cs, switchExit + 1, switchExit);
      Patch(jumpToCheck, |il| - 1, Jump, front, [Target(Jump, 0)] + code + [Ins(Label, 0)]);
      EmitChecks(values, places, defaultAt);
      breaks := breaks[..|breaks| - 1];
      s := Switch(c, cs);
      DefaultCode(cs, switchExit + 1, switchExit, defaultAt);
      CloseSwitch(switchExit, start, brk, s);
    }

    /** The label behind a switch, where its exit jump goes. */
    method CloseSwitch(switchExit: nat, ghost start: seq<Instr>, ghost brk: nat, ghost s: Stmt)
      requires s.Switch? && switchExit == SwitchPlaces(s, |start|).exit
      requires var f := SwitchPlaces(s, |start|);
               il == start + CExpr(s.on, 1) + [Target(Jump, f.check)]
                     + ([Target(Jump, 0)] + CClauses(s.clauses, f.first, f.exit) + [Ins(Label, 0)])
                     + CChecks(s.clauses, f.first, f.exit) + CDefault(s.clauses, f.first, f.exit)
      modifies `il
      ensures il == start + CStmt(s, |start|, brk)
    {
      hide CExpr, CClauses, CChecks, CDefault, CStmt;
      ghost var f := SwitchPlaces(s, |start|);
      ghost var front := start + CExpr(s.on, 1) + [Target(Jump, f.check)];
      Emit(Ins(Label, 0));
      ghost var back :=
        CClauses(s.clauses, f.first, f.exit) + [Ins(Label, 0)] + Checks(s, f.first, f.exit) + [Ins(Label, 0)];
      assert il == front + [Target(Jump, 0)] + back;
      Patch(switchExit, |il| - 1, Jump, front, back);
      SwitchCodeIs(s, start, brk, il);
    }
  }

  // ----- the code of statements, behind what is there already -----

  lemma IfThenCode(s: Stmt, start: seq<Instr>, brk: nat, il: seq<Instr>)
    requires s.If? && s.els.None?
    requires var f := IfPlaces(s, |start|, brk);
             il == start + CExpr(s.cond, 0) + [Target(Jz, f.after)] + (CStmt(s.thn, f.inner, brk) + [Ins(Label, 0)])
    ensures il == start + CStmt(s, |start|, brk)
  {
    hide CExpr;
  }

  lemma IfElseCode(s: Stmt, start: seq<Instr>, brk: nat, il: seq<Instr>)
    requires s.If? && s.els.Some?
    requires var f := IfPlaces(s, |start|, brk);
             il == (start + CExpr(s.cond, 0) + [Target(Jz, f.after + 1)] + CStmt(s.thn, f.inner, brk))
               + [Target(Jump, f.end)]
                   + ([Ins(Label, 0)] + CStmt(s.els.value, f.after + 2, brk) + [Ins(Label, 0)])
    ensures il == start + CStmt(s, |start|, brk)
  {
    hide CExpr, CStmt;
    IfElseShape(s, |start|, brk);
  }

  lemma WhileCode(s: Stmt, start: seq<Instr>, brk: nat, il: seq<Instr>)
    requires s.While?
    requires var f := WhilePlaces(s, |start|, brk);
             il == start + [Ins(Label, 0)] + CExpr(s.cond, 0) + [Target(Jz, f.end)]
                   + (CStmt(s.inner, f.inner, brk) + [Target(Jump, |start|), Ins(Label, 0)])
    ensures il == start + CStmt(s, |start|, brk)
  {
    hide CExpr;
  }

  lemma DoCode(s: Stmt, start: seq<Instr>, brk: nat, il: seq<Instr>)
    requires s.DoWhile?
    requires il
          == start + [Ins(Label, 0)] + CStmt(s.inner, |start| + 1, brk) + CExpr(s.cond, 0) + [Target(Jnz, |start|)]
    ensures il == start + CStmt(s, |start|, brk)
  {
    hide CExpr;
  }

  /** From the label of a for loop's increment to the jump back to its test. */
  function Between(h: ForHead, base: nat): seq<Instr> {
    [Ins(Label, 0)] + COptAssign(h.step) + [Target(Jump, base + |COptAssign(h.init)|)]
  }

  lemma HeadCode(h: ForHead, start: seq<Instr>)
    ensures var head := start + COptAssign(h.init) + [Ins(Label, 0)] + CTest(h.test);
            head + [Target(Jz, 0), Target(Jump, 0)] + [Ins(Label, 0)] + COptAssign(h.step)
            + [Target(Jump, |start| + |COptAssign(h.init)|)]
            == head + [Target(Jz, 0)] + [Target(Jump, 0)] + Between(h, |start|)
  {
    hide COptAssign, CTest;
  }

  lemma ForCodeIs(s: Stmt, h: ForHead, start: seq<Instr>, brk: nat, il: seq<Instr>)
    requires s.For? && h == ForHead(s.init, s.test, s.step)
    requires var f := ForPlaces(s, |start|, brk);
             il == start + COptAssign(s.init) + [Ins(Label, 0)] + CTest(s.test) + [Target(Jz, f.end)]
                   + ([Target(Jump, f.entry)] + Between(h, |start|) + [Ins(Label, 0)] + CStmt(s.inner, f.entry + 1, brk)
                      + [Target(Jump, f.increment), Ins(Label, 0)])
    ensures il == start + CStmt(s, |start|, brk)
  {
    hide COptAssign, CTest, CStmt;
    ForShape(s, |start|, brk);
  }

  lemma SwitchCodeIs(s: Stmt, start: seq<Instr>, brk: nat, il: seq<Instr>)
    requires s.Switch?
    requires var f := SwitchPlaces(s, |start|);
             il == start + CExpr(s.on, 1) + [Target(Jump, f.check)] + [Target(Jump, f.end)]
                   + (CClauses(s.clauses, f.first, f.exit) + [Ins(Label, 0)] + Checks(s, f.first, f.exit)
                      + [Ins(Label, 0)])
    ensures il == start + CStmt(s, |start|, brk)
  {
    hide CExpr, CClauses, CChecks, CDefault;
  }

  lemma DefaultCode(cs: seq<Clause>, base: nat, brk: nat, defaultAt: nat)
    requires DefaultAt(cs, base, brk) == if defaultAt != 0 then Some(defaultAt) else None
    ensures CDefault(cs, base, brk) == if defaultAt != 0 then [Target(Jump, defaultAt)] else []
  {
    hide DefaultAt;
  }

  /** The checks from the lists of values and places kept while the clauses are read. */
  function CheckList(values: seq<int>, places: seq<nat>): seq<Instr>
    requires |values| == |places|
  {
    if values == [] then []
    else [Const(0, values[0]), Ins2(Equals, 0, 1), Target(Jnz, places[0])] + CheckList(values[1..], places[1..])
  }

  lemma {:induction false} CheckListMore(values: seq<int>, places: seq<nat>, value: int, place: nat)
    requires |values| == |places|
    ensures CheckList(values + [value], places + [place])
         == CheckList(values, places) + [Const(0, value), Ins2(Equals, 0, 1), Target(Jnz, place)]
  {
    if values == [] {
      assert [value][1..] == [] && [place][1..] == [] && values + [value] == [value] && places + [place] == [place];
    } else {
      assert (values + [value])[1..] == values[1..] + [value] && (places + [place])[1..] == places[1..] + [place];
      CheckListMore(values[1..], places[1..], value, place);
    }
  }

  lemma ClausesNone(base: nat, brk: nat)
    ensures CClauses([], base, brk) == [] && CChecks([], base, brk) == [] && DefaultAt([], base, brk) == None
    ensures CheckList([], []) == []
  {
  }

  /** One more clause behind the others. */
  lemma {:induction false} ClausesMore(cs: seq<Clause>, c: Clause, base: nat, brk: nat)
    ensures CClauses(cs + [c], base, brk) == CClauses(cs, base, brk) + CClause(c, base + |CClauses(cs, base, brk)|, brk)
    decreases |cs|
  {
    hide CClause;
    if cs == [] {
      assert [c][1..] == [] && cs + [c] == [c];
      ClausesNone(base + |CClause(c, base, brk)|, brk);
    } else {
      assert (cs + [c])[0] == cs[0] && (cs + [c])[1..] == cs[1..] + [c];
      ClausesMore(cs[1..], c, base + |CClause(cs[0], base, brk)|, brk);
    }
  }

  lemma {:induction false} ChecksMore(cs: seq<Clause>, c: Clause, base: nat, brk: nat)
    ensures CChecks(cs + [c], base, brk) == CChecks(cs, base, brk) + CCheck(c, base + |CClauses(cs, base, brk)|)
    decreases |cs|
  {
    hide CClause, CCheck, CChecks, CClauses;
    ClausesNone(base, brk);
    if cs == [] {
      assert [c][1..] == [] && cs + [c] == [c];
      ClausesNone(base + |CClause(c, base, brk)|, brk);
      CheckFirst([c], base, brk);
    } else {
      var next := base + |CClause(cs[0], base, brk)|;
      assert (cs + [c])[0] == cs[0] && (cs + [c])[1..] == cs[1..] + [c];
      ChecksMore(cs[1..], c, next, brk);
      CheckFirst(cs + [c], base, brk);
      CheckFirst(cs, base, brk);
      Regroup(CCheck(cs[0], base), CChecks(cs[1..], next, brk), CCheck(c, next + |CClauses(cs[1..], next, brk)|));
    }
  }

  lemma CheckFirst(cs: seq<Clause>, base: nat, brk: nat)
    requires cs != []
    ensures var next := base + |CClause(cs[0], base, brk)|;
            && CChecks(cs, base, brk) == CCheck(cs[0], base) + CChecks(cs[1..], next, brk)
            && base + |CClauses(cs, base, brk)| == next + |CClauses(cs[1..], next, brk)|
  {
    hide CClause;
  }

  lemma {:induction false} DefaultMore(cs: seq<Clause>, c: Clause, base: nat, brk: nat)
    ensures DefaultAt(cs + [c], base, brk)
         == if c.tag.None? then Some(base + |CClauses(cs, base, brk)|) else DefaultAt(cs, base, brk)
    decreases |cs|
  {
    hide CClause;
    if cs == [] {
      assert [c][1..] == [] && cs + [c] == [c];
      ClausesNone(base + |CClause(c, base, brk)|, brk);
    } else {
      assert (cs + [c])[0] == cs[0] && (cs + [c])[1..] == cs[1..] + [c];
      DefaultMore(cs[1..], c, base + |CClause(cs[0], base, brk)|, brk);
    }
  }

  function CCheck(c: Clause, place: nat): seq<Instr> {
    match c.tag case None => [] case Some(v) => [Const(0, v), Ins2(Equals, 0, 1), Target(Jnz, place)]
  }

  lemma ClausesStep(sc: Scope, ts: seq<Token>, i: nat, done: seq<Clause>)
    requires i <= |ts| && sc.block < |sc.blocks| && StartsClause(Peek(ts, i))
    ensures PClause(sc, ts, i).None? ==> Prefix(done, PClauses(sc, ts, i)).None?
    ensures PClause(sc, ts, i).Some? ==>
              var c := PClause(sc, ts, i).value;
              Prefix(done, PClauses(sc, ts, i)) == Prefix(done + [c.value], PClauses(In(sc, c.blocks), ts, c.next))
  {
    hide PClause;
    var c := PClause(sc, ts, i);
    if c.Some? {
      var rest := PClauses(In(sc, c.value.blocks), ts, c.value.next);
      if rest.Some? { assert done + ([c.value.value] + rest.value.value) == done + [c.value.value] + rest.value.value; }
    }
  }

  lemma ClausesEnd(sc: Scope, ts: seq<Token>, i: nat, done: seq<Clause>)
    requires i <= |ts| && sc.block < |sc.blocks| && !StartsClause(Peek(ts, i))
    ensures Prefix(done, PClauses(sc, ts, i))
         == if Peek(ts, i).TClCurly? then Some(Parsed(done, i + 1, sc.blocks)) else None
  {
    hide PClauseBody;
    assert done + [] == done;
  }

  lemma BodyStep(sc: Scope, ts: seq<Token>, i: nat, done: seq<Stmt>)
    requires i <= |ts| && sc.block < |sc.blocks| && !StartsClause(Peek(ts, i)) && !Peek(ts, i).TClCurly?
    ensures PStmt(sc, true, ts, i).None? ==> Prefix(done, PClauseBody(sc, ts, i)).None?
    ensures PStmt(sc, true, ts, i).Some? ==>
              var s := PStmt(sc, true, ts, i).value;
              Prefix(done, PClauseBody(sc, ts, i))
                == Prefix(done + [s.value], PClauseBody(In(sc, s.blocks), ts, s.next))
  {
    hide PStmt;
    var s := PStmt(sc, true, ts, i);
    if s.Some? {
      var rest := PClauseBody(In(sc, s.value.blocks), ts, s.value.next);
      if rest.Some? { assert done + ([s.value.value] + rest.value.value) == done + [s.value.value] + rest.value.value; }
    }
  }

  lemma BodyEnd(sc: Scope, ts: seq<Token>, i: nat, done: seq<Stmt>)
    requires i <= |ts| && sc.block < |sc.blocks| && (StartsClause(Peek(ts, i)) || Peek(ts, i).TClCurly?)
    ensures Prefix(done, PClauseBody(sc, ts, i)) == Some(Parsed(done, i, sc.blocks))
  {
    assert done + [] == done;
  }

  lemma EmptyCode(base: nat, brk: nat)
    ensures CStmt(Empty, base, brk) == []
  {
  }

  lemma BreakCode(after: Stmt, base: nat, brk: nat)
    ensures CStmt(Break(after), base, brk) == [Target(Jump, brk)] + CStmt(after, base + 1, brk)
  {
  }

  /** A call whose result is not used saves no registers. */
  lemma PlainCall(name: string, args: seq<Expr>)
    ensures COperand(Call(name, args, false), 0) == CArgs(args, 0) + [Named(FunctionCall, 0, name)]
    ensures COperand(FunctionAddress(name, false), 0) == [Named(GetVarAddr, 0, name)]
  {
    hide CArgs;
    assert Pushes(0, 0) == [] && Pops(0) == [];
  }

  lemma PrefixNone<T>(rest: Option<Parsed<seq<T>>>)
    ensures Prefix([], rest) == rest
  {
    if rest.Some? { assert [] + rest.value.value == rest.value.value; }
  }

  lemma StmtsNone(base: nat, brk: nat)
    ensures CStmts([], base, brk) == []
  {
  }

  lemma {:induction false} StmtsMore(ss: seq<Stmt>, s: Stmt, base: nat, brk: nat)
    ensures CStmts(ss + [s], base, brk) == CStmts(ss, base, brk) + CStmt(s, base + |CStmts(ss, base, brk)|, brk)
    decreases |ss|
  {
    hide CStmt;
    if ss == [] {
      assert [s][1..] == [] && ss + [s] == [s];
      StmtsNone(base + |CStmt(s, base, brk)|, brk);
    } else {
      assert (ss + [s])[0] == ss[0] && (ss + [s])[1..] == ss[1..] + [s];
      StmtsMore(ss[1..], s, base + |CStmt(ss[0], base, brk)|, brk);
    }
  }

  lemma StmtsStep(sc: Scope, inSwitch: bool, ts: seq<Token>, i: nat, done: seq<Stmt>)
    requires i <= |ts| && sc.block < |sc.blocks| && !Peek(ts, i).TClCurly?
    ensures PStmt(sc, inSwitch, ts, i).None? ==> Prefix(done, PStmts(sc, inSwitch, ts, i)).None?
    ensures PStmt(sc, inSwitch, ts, i).Some? ==>
              var s := PStmt(sc, inSwitch, ts, i).value;
              Prefix(done, PStmts(sc, inSwitch, ts, i))
              == Prefix(done + [s.value], PStmts(In(sc, s.blocks), inSwitch, ts, s.next))
  {
    hide PStmt;
    var s := PStmt(sc, inSwitch, ts, i);
    if s.Some? {
      var rest := PStmts(In(sc, s.value.blocks), inSwitch, ts, s.value.next);
      if rest.Some? { assert done + ([s.value.value] + rest.value.value) == done + [s.value.value] + rest.value.value; }
    }
  }

  lemma StmtsEnd(sc: Scope, inSwitch: bool, ts: seq<Token>, i: nat, done: seq<Stmt>)
    requires i <= |ts| && sc.block < |sc.blocks| && Peek(ts, i).TClCurly?
    ensures Prefix(done, PStmts(sc, inSwitch, ts, i)) == Some(Parsed(done, i + 1, sc.blocks))
  {
    assert done + [] == done;
  }

  // ----- assignments and declarations -----

  /** The code behind the left-hand side's address. */
  function CAssigned(a: Assign): seq<Instr> {
    match a
    case Store(lv, value) => CExpr(value, 1) + [Write(1, 0, LvSize(lv))]
    case Update(lv, op, amount) =>
      [Read(1, 0, LvSize(lv))] + CAmount(lv, amount) + [Ins2(op, 1, 2), Write(1, 0, LvSize(lv))]
    case CallThrough(lv, args) => [Read(0, 0, LvSize(lv))] + CPointerCall(args, 0)
  }

  lemma AssignCode(a: Assign)
    ensures CAssign(a) == CLValue(a.lv, 0) + CAssigned(a)
  {
    hide CLValue, CExpr, CPointerCall;
  }

  lemma PLValueIs(sc: Scope, v: Var, ts: seq<Token>, i: nat)
    requires i <= |ts| && PLValue(sc, v, ts, i).Some?
    ensures PLValue(sc, v, ts, i).value.value.isPointer == v.isPointer
  {
    hide PIndexes;
  }

  lemma InitCode(x: Init)
    ensures CInits([x]) == CExpr(x.value, 1) + [Named(GetVarAddr, 0, x.name), Write(1, 0, x.size)]
  {
    hide CExpr;
    assert [x][1..] == [];
    assert CInits([]) == [];
  }

  lemma {:induction false} InitsJoin(xs: seq<Init>, ys: seq<Init>)
    ensures CInits(xs + ys) == CInits(xs) + CInits(ys)
  {
    hide CExpr;
    if xs == [] {
      assert xs + ys == ys;
    } else {
      assert (xs + ys)[0] == xs[0] && (xs + ys)[1..] == xs[1..] + ys;
      InitsJoin(xs[1..], ys);
    }
  }

  lemma OneInit(d: Declarator)
    ensures InitsOf([d]) == match d.init case None => [] case Some(x) => [x]
    ensures d.init.None? ==> CInits(InitsOf([d])) == []
  {
    assert [d][1..] == [];
  }

  lemma {:induction false} InitsSplit(xs: seq<Declarator>, ys: seq<Declarator>)
    ensures InitsOf(xs + ys) == InitsOf(xs) + InitsOf(ys)
  {
    if xs == [] {
      assert xs + ys == ys;
    } else {
      assert (xs + ys)[0] == xs[0] && (xs + ys)[1..] == xs[1..] + ys;
      InitsSplit(xs[1..], ys);
    }
  }

  lemma MoreStep(sc: Scope, t: TypeDef, size: int, ts: seq<Token>, i: nat, done: seq<Declarator>)
    requires i <= |ts| && sc.block < |sc.blocks| && Peek(ts, i).TComma?
    ensures PInit(sc, t, Some(size), ts, i + 1).None? ==> Prefix(done, PMoreInits(sc, t, size, ts, i)).None?
    ensures PInit(sc, t, Some(size), ts, i + 1).Some? ==>
              var x := PInit(sc, t, Some(size), ts, i + 1).value;
              x.size == size &&
              Prefix(done, PMoreInits(sc, t, size, ts, i))
              == Prefix(done + [x.d], PMoreInits(In(sc, x.blocks), t, size, ts, x.next))
  {
    hide PExpr, PDeclarator;
    var x := PInit(sc, t, Some(size), ts, i + 1);
    if x.Some? {
      var rest := PMoreInits(In(sc, x.value.blocks), t, size, ts, x.value.next);
      if rest.Some? {
        assert done + ([x.value.d] + rest.value.value) == done + [x.value.d] + rest.value.value;
      }
    }
  }

  lemma MoreEnd(sc: Scope, t: TypeDef, size: int, ts: seq<Token>, i: nat, done: seq<Declarator>)
    requires i <= |ts| && sc.block < |sc.blocks| && !Peek(ts, i).TComma?
    ensures Prefix(done, PMoreInits(sc, t, size, ts, i))
         == if Peek(ts, i).TSemicolon? then Some(Parsed(done, i + 1, sc.blocks)) else None
  {
    assert done + [] == done;
  }

  // ----- lists of statements read in a loop -----

  function Prefix<T>(done: seq<T>, rest: Option<Parsed<seq<T>>>): Option<Parsed<seq<T>>> {
    match rest case None => None case Some(r) => Some(r.(value := done + r.value))
  }

  lemma PrefixIs<T>(done: seq<T>, rest: Option<Parsed<seq<T>>>)
    ensures Prefix(done, rest) == match rest case None => None case Some(r) => Some(r.(value := done + r.value))
  {
  }

  // ----- the code of operands -----

  lemma NumCode(v: int, form: NumForm, p: nat)
    ensures COperand(Num(v, false, form), p) == [Const(p, v)]
  {
  }

  lemma NotCode(o: Operand, p: nat)
    ensures COperand(LogNot(o), p) == COperand(o, p) + [Ins(Not, p)]
  {
  }

  lemma AddressCode(lv: LValue, p: nat)
    ensures COperand(AddressOf(lv), p) == CLValue(lv, p)
  {
    hide CLValue;
  }

  lemma ParenCode(e: Expr, neg: bool, p: nat)
    ensures COperand(Paren(e, neg), p) == CExpr(e, p) + Negated(neg, p)
  {
    hide CExpr;
  }

  lemma ValueCode(o: Operand, start: seq<Instr>, p: nat)
    requires o.Value?
    ensures start + CLValue(o.lv, p) + CSuffix(o.lv, o.prefix, o.suffix, p)
            + (if o.calls then CPointerCall(o.args, p) else []) + Negated(o.neg, p)
         == start + COperand(o, p)
  {
    hide CLValue, CSuffix, CPointerCall, Negated;
  }

  lemma CallCode(name: string, args: seq<Expr>, neg: bool, start: seq<Instr>, p: nat)
    ensures start + Pushes(0, p) + CArgs(args, 0) + [Named(FunctionCall, p, name)] + Pops(p) + Negated(neg, p)
         == start + COperand(Call(name, args, neg), p)
    ensures start + Pushes(0, p) + [Named(GetVarAddr, p, name)] + Pops(p) + Negated(neg, p)
         == start + COperand(FunctionAddress(name, neg), p)
  {
    hide Pushes, Pops, CArgs, Negated;
  }

  lemma LValueCode(lv: LValue, start: seq<Instr>, p: nat)
    ensures start + [Named(GetVarAddr, p, lv.name)] + CIndexes(lv, lv.indexes, p) == start + CLValue(lv, p)
  {
    hide CIndexes;
  }

  lemma UpdateIs(lv: LValue, op: BinaryOp, amount: Option<Expr>, start: seq<Instr>)
    ensures start + [Read(1, 0, LvSize(lv))] + CAmount(lv, amount) + [Ins2(op, 1, 2), Write(1, 0, LvSize(lv))]
         == start + CAssigned(Update(lv, op, amount))
  {
    hide CAmount, LvSize;
  }

  lemma LookupIs(sc: Scope, name: string)
    ensures Lookup(sc, name) == FindVariable(sc.blocks, sc.names.funcs, sc.block, name)
  {
  }

  // ----- indexes -----

  function CIndex(lv: LValue, e: Expr, p: nat): seq<Instr> {
    (if lv.isPointer != 0 then [Read(p, p, PTR_SIZE)] else [])
    + CExpr(e, p + 1) + Scaled(p, if lv.isPointer <= 1 then lv.tsize else PTR_SIZE)
  }

  /** One more index, if there is one. */
  lemma IndexesStep(sc: Scope, v: Var, ts: seq<Token>, i: nat, done: seq<Expr>)
    requires i <= |ts| && Peek(ts, i).TOpSquare?
    ensures var e := PExpr(sc, ts, i + 1);
            if (v.isPointer == 0 && v.arraySize == 0) || e.None? || !Peek(ts, e.value.next).TClSquare? then
              Prepend(done, PIndexes(sc, v, ts, i)).None?
            else
              Prepend(done, PIndexes(sc, v, ts, i))
                == Prepend(done + [e.value.value], PIndexes(sc, v, ts, e.value.next + 1))
  {
    hide PExpr;
    var e := PExpr(sc, ts, i + 1);
    if e.Some? && Peek(ts, e.value.next).TClSquare? {
      PrependMore(done, e.value.value, PIndexes(sc, v, ts, e.value.next + 1));
    }
  }

  lemma IndexesEnd(sc: Scope, v: Var, ts: seq<Token>, i: nat, done: seq<Expr>)
    requires i <= |ts| && !Peek(ts, i).TOpSquare?
    ensures Prepend(done, PIndexes(sc, v, ts, i))
         == if Peek(ts, i).TDot? || Peek(ts, i).TArrow? then None else Some(Parse(done, i))
  {
    assert done + [] == done;
  }

  lemma NoIndexes(lv: LValue, p: nat)
    ensures CIndexes(lv, [], p) == []
  {
  }

  lemma {:induction false} IndexesMore(lv: LValue, xs: seq<Expr>, e: Expr, p: nat)
    ensures CIndexes(lv, xs + [e], p) == CIndexes(lv, xs, p) + CIndex(lv, e, p)
    decreases |xs|
  {
    hide CExpr, Scaled;
    if xs == [] {
      assert [e][1..] == [];
      assert CIndexes(lv, [e], p) == CIndex(lv, e, p) + CIndexes(lv, [], p);
      assert xs + [e] == [e];
    } else {
      assert (xs + [e])[0] == xs[0] && (xs + [e])[1..] == xs[1..] + [e];
      IndexesMore(lv, xs[1..], e, p);
      assert CIndexes(lv, xs + [e], p) == CIndex(lv, xs[0], p) + (CIndexes(lv, xs[1..], p) + CIndex(lv, e, p));
      assert CIndexes(lv, xs, p) == CIndex(lv, xs[0], p) + CIndexes(lv, xs[1..], p);
    }
  }

  lemma {:induction false} IndexesSame(lv: LValue, lv': LValue, xs: seq<Expr>, p: nat)
    requires lv.isPointer == lv'.isPointer && lv.tsize == lv'.tsize
    ensures CIndexes(lv, xs, p) == CIndexes(lv', xs, p)
    decreases |xs|
  {
    hide CExpr, Scaled;
    if xs != [] {
      IndexesSame(lv, lv', xs[1..], p);
    }
  }

  lemma Regroup(a: seq<Instr>, b: seq<Instr>, c: seq<Instr>)
    ensures a + b + c == a + (b + c)
  {
  }

  // ----- operator chains -----

  /** The code of a chain before its stack is unwound. */
  function CSteps(ops: seq<Op>, done: seq<Term>, p: nat): seq<Instr>
    decreases |done|
  {
    if done == [] then []
    else
      CReduce(ops, done[0].op, p) + CTerm(done[0], p) + [Ins(Push, p)]
      + CSteps(Reduced(ops, done[0].op) + [done[0].op], done[1..], p)
  }

  /** The operators on the stack by then. */
  function OpsAfter(ops: seq<Op>, done: seq<Term>): seq<Op>
    decreases |done|
  {
    if done == [] then ops else OpsAfter(Reduced(ops, done[0].op) + [done[0].op], done[1..])
  }

  lemma ReduceMore(ops: seq<Op>, op: Op, p: nat, start: seq<Instr>)
    requires ops != [] && Priority(ops[|ops| - 1]) >= Priority(op)
    ensures var top, init := ops[|ops| - 1], ops[..|ops| - 1];
            && Reduced(ops, op) == Reduced(init, op)
            && start + CReduce(ops, op, p) == start + Apply(top, p) + [Ins(Push, p)] + CReduce(init, op, p)
  {
    hide Priority, Apply;
  }

  lemma ReduceDone(ops: seq<Op>, op: Op, p: nat)
    requires ops != [] ==> Priority(ops[|ops| - 1]) < Priority(op)
    ensures Reduced(ops, op) == ops && CReduce(ops, op, p) == []
  {
    hide Priority;
  }

  lemma StepsNone(ops: seq<Op>, p: nat)
    ensures CSteps(ops, [], p) == [] && OpsAfter(ops, []) == ops
  {
  }

  lemma {:induction false} StepsMore(ops: seq<Op>, done: seq<Term>, t: Term, p: nat)
    ensures OpsAfter(ops, done + [t]) == Reduced(OpsAfter(ops, done), t.op) + [t.op]
    ensures CSteps(ops, done + [t], p)
         == CSteps(ops, done, p) + (CReduce(OpsAfter(ops, done), t.op, p) + CTerm(t, p) + [Ins(Push, p)])
    decreases |done|
  {
    hide CReduce, Reduced, CTerm;
    if done == [] {
      assert done + [t] == [t] && [t][1..] == [];
      var ops' := Reduced(ops, t.op) + [t.op];
      StepsNone(ops', p);
      assert CSteps(ops, [t], p) == CReduce(ops, t.op, p) + CTerm(t, p) + [Ins(Push, p)] + CSteps(ops', [], p);
    } else {
      assert (done + [t])[0] == done[0] && (done + [t])[1..] == done[1..] + [t];
      var ops' := Reduced(ops, done[0].op) + [done[0].op];
      var step := CReduce(ops, done[0].op, p) + CTerm(done[0], p) + [Ins(Push, p)];
      StepsMore(ops', done[1..], t, p);
      assert CSteps(ops, done + [t], p) == step + CSteps(ops', done[1..] + [t], p);
      assert CSteps(ops, done, p) == step + CSteps(ops', done[1..], p);
    }
  }

  lemma {:induction false} StepsThenUnwind(ops: seq<Op>, done: seq<Term>, p: nat)
    ensures CChain(ops, done, p) == CSteps(ops, done, p) + CUnwind(OpsAfter(ops, done), p)
    decreases |done|
  {
    hide CReduce, Reduced, CTerm, CUnwind;
    if done != [] {
      var ops' := Reduced(ops, done[0].op) + [done[0].op];
      var step := CReduce(ops, done[0].op, p) + CTerm(done[0], p) + [Ins(Push, p)];
      StepsThenUnwind(ops', done[1..], p);
      assert CChain(ops, done, p) == step + CChain(ops', done[1..], p);
      assert CSteps(ops, done, p) == step + CSteps(ops', done[1..], p);
    }
  }

  lemma OperatorThere(ts: seq<Token>, i: nat)
    requires Operator(Peek(ts, i)).Some?
    ensures i < |ts|
  {
  }

  lemma IncreasingOne(op: Op)
    ensures ExprCorrect.Increasing([op])
  {
  }

  lemma TermCode(t: Term, p: nat)
    ensures CTerm(t, p) == COperand(t.operand, p)
  {
  }

  lemma ExprCode(e: Expr, first: Operand, second: Term, rest: seq<Term>, p: nat)
    requires e == Expr(first, [second] + rest) && rest != []
    ensures CExpr(e, p)
         == COperand(first, p) + COperand(second.operand, p + 1) + [Ins(Push, p), Ins(Push, p + 1)]
            + CChain([second.op], rest, p)
  {
    hide COperand, CChain;
    assert e.rest[1..] == rest;
  }

  lemma TermsStep(sc: Scope, ts: seq<Token>, i: nat, done: seq<Term>)
    requires i <= |ts| && Operator(Peek(ts, i)).Some?
    ensures POperand(sc, ts, i + 1).None? ==> Prepend(done, PTerms(sc, ts, i)).None?
    ensures POperand(sc, ts, i + 1).Some? ==>
              var op, o := Operator(Peek(ts, i)).value, POperand(sc, ts, i + 1).value;
              Prepend(done, PTerms(sc, ts, i)) == Prepend(done + [Term(op, o.value)], PTerms(sc, ts, o.next))
  {
    hide POperand;
    var op, o := Operator(Peek(ts, i)).value, POperand(sc, ts, i + 1);
    if o.Some? {
      PrependMore(done, Term(op, o.value.value), PTerms(sc, ts, o.value.next));
    }
  }

  lemma TermsEnd(sc: Scope, ts: seq<Token>, i: nat, done: seq<Term>)
    requires i <= |ts| && Operator(Peek(ts, i)).None?
    ensures Prepend(done, PTerms(sc, ts, i)) == Some(Parse(done, i))
  {
    assert done + [] == done;
  }

  // ----- lists read in a loop -----

  function Prepend<T>(done: seq<T>, rest: Option<Parse<seq<T>>>): Option<Parse<seq<T>>> {
    match rest case None => None case Some(r) => Some(Parse(done + r.value, r.next))
  }

  lemma PrependNone<T>(rest: Option<Parse<seq<T>>>)
    ensures Prepend([], rest) == rest
  {
    if rest.Some? { assert [] + rest.value.value == rest.value.value; }
  }

  lemma PrependMore<T>(done: seq<T>, x: T, rest: Option<Parse<seq<T>>>)
    ensures Prepend(done, Prepend([x], rest)) == Prepend(done + [x], rest)
  {
    if rest.Some? { assert done + ([x] + rest.value.value) == done + [x] + rest.value.value; }
  }

  lemma ArgsFirst(args: seq<Expr>, k: nat)
    requires args != []
    ensures CArgs(args, k) == CExpr(args[0], k) + CArgs(args[1..], k + 1)
  {
    hide CExpr;
  }

  lemma ArgsNone(k: nat)
    ensures CArgs([], k) == []
  {
  }

  /** One more argument, if there is one. */
  lemma ArgsStep(sc: Scope, ts: seq<Token>, i: nat, done: seq<Expr>)
    requires i <= |ts| && !Peek(ts, i).TClBracket?
    ensures PExpr(sc, ts, i).None? ==> Prepend(done, PArgs(sc, ts, i)).None?
    ensures PExpr(sc, ts, i).Some? ==>
              var e := PExpr(sc, ts, i).value;
              var next := if Peek(ts, e.next).TComma? then e.next + 1 else e.next;
              Prepend(done, PArgs(sc, ts, i)) == Prepend(done + [e.value], PArgs(sc, ts, next))
  {
    hide PExpr;
    if PExpr(sc, ts, i).Some? {
      var e := PExpr(sc, ts, i).value;
      var next := if Peek(ts, e.next).TComma? then e.next + 1 else e.next;
      PrependMore(done, e.value, PArgs(sc, ts, next));
    }
  }

  lemma ArgsEnd(sc: Scope, ts: seq<Token>, i: nat, done: seq<Expr>)
    requires i <= |ts| && Peek(ts, i).TClBracket?
    ensures Prepend(done, PArgs(sc, ts, i)) == Some(Parse(done, i + 1))
  {
    assert done + [] == done;
  }

  lemma {:induction false} ArgsMore(args: seq<Expr>, k: nat, e: Expr)
    ensures CArgs(args + [e], k) == CArgs(args, k) + CExpr(e, k + |args|)
    decreases |args|
  {
    hide CExpr, CArgs;
    ArgsNone(k);
    if args == [] {
      assert [e][1..] == [] && args + [e] == [e];
      ArgsFirst([e], k);
      ArgsNone(k + 1);
    } else {
      assert (args + [e])[0] == args[0] && (args + [e])[1..] == args[1..] + [e];
      ArgsFirst(args + [e], k);
      ArgsFirst(args, k);
      ArgsMore(args[1..], k + 1, e);
      Regroup(CExpr(args[0], k), CArgs(args[1..], k + 1), CExpr(e, k + |args|));
    }
  }
}
