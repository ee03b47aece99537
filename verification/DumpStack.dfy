/** The dump as the interpreter keeps it: an array that grows, and lists that are turned round and
    copied in place. */
module DumpStack {
  import opened CellLists
  import C = Continuations

  const STACK_GROWTH: nat := 3

  /** The copies hold what the frames held; the cells of their lists are new, and all others are as
      they were. */
  ghost predicate OwnCopies(h: Heap, frames: seq<C.Frame>, h1: Heap, copies: seq<C.Frame>) {
    && |h| <= |h1| && h1[..|h|] == h && |copies| == |frames|
    && C.FramesOk(h, frames) && C.FramesOk(h1, copies) && C.Views(h1, copies) == C.Views(h, frames)
    && C.FramesIn(h1, copies, |h|, |h1|)
  }

  lemma CopiesAreOwn(h: Heap, frames: seq<C.Frame>)
    requires C.FramesOk(h, frames)
    ensures OwnCopies(h, frames, C.CopyFrames(h, frames).0, C.CopyFrames(h, frames).1)
  {
    C.CopyFramesCorrect(h, frames);
  }

  class Interpreter {
    var heap: seq<Cell>
    var args: Ptr
    var envir: Ptr
    var code: Ptr
    var value: Ptr
    var base: array<C.Frame>
    var dump: nat
    var saved: seq<seq<C.Frame>>

    /** The dump never holds more frames than there is room for, and neither does a continuation:
        the room never shrinks. */
    predicate Valid()
      reads this
    {
      && dump <= base.Length
      && forall k | 0 <= k < |saved| :: |saved[k]| <= base.Length
    }

    ghost function State(): C.State
      reads this, base
      requires dump <= base.Length
    {
      C.State(heap, C.Registers(args, envir, code, value), base[..dump], saved)
    }

    constructor ()
      ensures Valid() && fresh(base) && C.Start(State()) && dump == 0 && heap == [] && saved == []
    {
      heap, args, envir, code, value := [], Nil, Nil, Nil, Nil;
      base := new C.Frame[0];
      dump, saved := 0, [];
    }

    method SSave(op: nat, a: Ptr, c: Ptr)
      requires Valid()
      modifies this`base, this`dump, base
      ensures Valid() && (base == old(base) || fresh(base))
      ensures State() == C.Saved(old(State()), C.Frame(op, a, envir, c))
      ensures dump == old(dump) + 1 && base[old(dump)] == C.Frame(op, a, envir, c)
      ensures base[..old(dump)] == old(base[..dump])
      ensures base.Length == old(base.Length) + if old(dump) == old(base.Length) then STACK_GROWTH else 0
    {
      if dump >= base.Length {
        var bigger := new C.Frame[base.Length + STACK_GROWTH];
        forall i | 0 <= i < dump {
          bigger[i] := base[i];
        }
        base := bigger;
      }
      base[dump] := C.Frame(op, a, envir, c);
      dump := dump + 1;
    }

    method SReturn(v: Ptr) returns (ok: bool)
      requires Valid()
      modifies this`args, this`envir, this`code, this`value, this`dump
      ensures Valid() && ok == (old(dump) > 0)
      ensures State() == C.Returned(old(State()), v)
      ensures value == v
      ensures ok ==>
        var f := base[old(dump) - 1];
        dump == old(dump) - 1 && args == f.args && envir == f.envir && code == f.code
      ensures !ok ==> dump == 0 && args == old(args) && envir == old(envir) && code == old(code)
    {
      value := v;
      ok := dump > 0;
      if ok {
        dump := dump - 1;
        var f := base[dump];
        args, envir, code := f.args, f.envir, f.code;
      }
    }

    method ReverseInPlace(term: Ptr, list: Ptr) returns (result: Ptr)
      requires Proper(heap, list)
      modifies this`heap
      ensures Within(old(heap), Spine(old(heap), list))
      ensures heap == Turned(old(heap), Spine(old(heap), list), term)
      ensures result == Head(Spine(old(heap), list), term)
    {
      ghost var cells := Spine(heap, list);
      ghost var done := 0;
      InHeap(heap, list, cells);
      var p := list;
      result := term;
      while p != Nil
        invariant done <= |cells| && IsList(heap, p, cells[done..]) && Within(heap, cells)
        invariant Turned(heap, cells[done..], result) == Turned(old(heap), cells, term)
        invariant result == if done == 0 then term else At(cells[done - 1])
        decreases |cells| - done
      {
        ghost var rest := cells[done..];
        SpineDistinct(heap, p, rest);
        var q := heap[p.i].cdr;
        ghost var before := heap;
        heap := heap[p.i := heap[p.i].(cdr := result)];
        ListAgrees(before, heap, q, rest[1..]);
        assert rest[1..] == cells[done + 1..];
        result := p;
        p := q;
        done := done + 1;
      }
    }

    method ListCopy(list: Ptr) returns (r: Ptr)
      requires Proper(heap, list)
      modifies this`heap
      ensures (heap, r) == C.ListCopy(old(heap), list)
    {
      ghost var h := heap;
      ghost var cells := Spine(h, list);
      ghost var done := 0;
      InHeap(h, list, cells);
      r := Nil;
      var p := list;
      while p != Nil
        invariant done <= |cells| && IsList(h, p, cells[done..])
        invariant heap == Piled(h, cells, done) && r == PileTop(h, done)
        decreases |cells| - done
      {
        PileMore(h, cells, done);
        assert cells[done..][1..] == cells[done + 1..];
        var c := heap[p.i];
        heap := heap + [Cell(c.car, r)];
        r := At(|heap| - 1);
        p := c.cdr;
        done := done + 1;
      }
      PileTurned(h, cells);
      r := ReverseInPlace(Nil, r);
    }

    /** The lists of one frame are copied. */
    method CopyLists(f: C.Frame) returns (r: C.Frame)
      requires C.FrameOk(heap, f)
      modifies this`heap
      ensures (heap, r) == C.CopyFrame(old(heap), f)
    {
      C.ListCopyCorrect(heap, f.args);
      var a := ListCopy(f.args);
      r := f.(args := a);
      if !f.code.Symbol? {
        C.Extended(old(heap), heap, f.code);
        var c := ListCopy(f.code);
        r := r.(code := c);
      }
    }

    method DumpStackCopy()
      requires Valid() && C.FramesOk(heap, State().dump)
      modifies this`heap, this`saved, this`value
      ensures Valid() && State() == C.Captured(old(State()))
      ensures saved == old(saved) + [saved[|saved| - 1]] && value == Continuation(|old(saved)|)
      ensures OwnCopies(old(heap), old(base[..dump]), heap, saved[|saved| - 1])
    {
      ghost var h, frames := heap, base[..dump];
      CopiesAreOwn(h, frames);
      var copies := CopySaved();
      value := Continuation(|saved|);
      saved := saved + [copies];
    }

    /** The lists of all frames are copied into the block that is to be saved. */
    method CopySaved() returns (copies: seq<C.Frame>)
      requires Valid() && C.FramesOk(heap, base[..dump])
      modifies this`heap
      ensures (heap, copies) == C.CopyFrames(old(heap), base[..dump]) && |copies| == dump
    {
      ghost var h, frames := heap, base[..dump];
      copies := [];
      var j := 0;
      while j < dump
        invariant j == |copies| <= |frames| && C.FramesOk(h, frames[..j])
        invariant (heap, copies) == C.CopyFrames(h, frames[..j])
      {
        C.CopyOneMore(h, frames, j);
        var f := CopyLists(base[j]);
        copies := copies + [f];
        j := j + 1;
      }
      assert frames[..j] == frames;
    }

    /** Nothing here makes room: the frames fit, as `Valid` says. */
    method DumpStackContinuationSet(k: nat)
      requires Valid() && k < |saved| && C.FramesOk(heap, saved[k])
      modifies this`heap, this`dump, base
      ensures Valid() && State() == C.Invoked(old(State()), k)
      ensures OwnCopies(old(heap), saved[k], heap, base[..dump])
    {
      CopiesAreOwn(heap, saved[k]);
      CopyIn(saved[k]);
      assert base[..dump] == saved[k];
      CopyLiveLists();
    }

    /** `memcpy` of saved frames. */
    method CopyIn(frames: seq<C.Frame>)
      requires |frames| <= base.Length
      modifies this`dump, base
      ensures dump == |frames| && base[..dump] == frames
    {
      forall i | 0 <= i < |frames| {
        base[i] := frames[i];
      }
      dump := |frames|;
    }

    /** The lists of all frames of the live dump are copied in place. */
    method CopyLiveLists()
      requires Valid() && C.FramesOk(heap, base[..dump])
      modifies this`heap, base
      ensures (heap, base[..dump]) == C.CopyFrames(old(heap), old(base[..dump]))
    {
      ghost var h, frames := heap, base[..dump];
      var j := 0;
      while j < dump
        invariant j <= dump == |frames| && C.FramesOk(h, frames[..j])
        invariant (heap, base[..j]) == C.CopyFrames(h, frames[..j])
        invariant forall i | j <= i < dump :: base[i] == frames[i]
      {
        C.CopyOneMore(h, frames, j);
        var f := CopyLists(base[j]);
        ghost var front := base[..j];
        base[j] := f;
        assert base[..j + 1] == front + [f];
        j := j + 1;
      }
      assert frames[..j] == frames;
    }
  }
}
