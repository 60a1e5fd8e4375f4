/** The opcode lists that `difflib.SequenceMatcher.get_opcodes()` returns. The
    matcher itself is outside the model: its opcodes are taken as input, and
    what difflib documents about them is stated as `IsOpcodes`. */
module Opcodes {
  import opened Seqs

  datatype Tag = Equal | Replace | Delete | Insert

  /** The tag string difflib reports. */
  function TagName(t: Tag): string {
    match t
    case Equal => "equal"
    case Replace => "replace"
    case Delete => "delete"
    case Insert => "insert"
  }

  /** `(tag, i1, i2, j1, j2)`: `a[i1:i2]` stands to `b[j1:j2]` as the tag says. */
  datatype Opcode = Opcode(tag: Tag, i1: nat, i2: nat, j1: nat, j2: nat)

  /** Where the opcodes so far end in `a` and in `b`. */
  function EndA(ops: seq<Opcode>): nat {
    if ops == [] then 0 else ops[|ops| - 1].i2
  }

  function EndB(ops: seq<Opcode>): nat {
    if ops == [] then 0 else ops[|ops| - 1].j2
  }

  /** One opcode that continues at `(i, j)`, stays within both sequences and
      means what its tag says: `equal` ranges hold the same elements, a
      `delete` takes nothing from `b`, an `insert` nothing from `a`, and no
      change is empty. */
  predicate Step<T(==)>(o: Opcode, a: seq<T>, b: seq<T>, i: nat, j: nat) {
    && o.i1 == i && o.j1 == j && o.i1 <= o.i2 <= |a| && o.j1 <= o.j2 <= |b|
    && match o.tag
       case Equal => a[o.i1..o.i2] == b[o.j1..o.j2]
       case Replace => o.i1 < o.i2 && o.j1 < o.j2
       case Delete => o.i1 < o.i2 && o.j1 == o.j2
       case Insert => o.i1 == o.i2 && o.j1 < o.j2
  }

  /** Each opcode starts where the one before it ends, the first at `(0, 0)`. */
  predicate Chain<T(==)>(ops: seq<Opcode>, a: seq<T>, b: seq<T>) {
    || ops == []
    || (var init := ops[..|ops| - 1];
        Chain(init, a, b) && Step(ops[|ops| - 1], a, b, EndA(init), EndB(init)))
  }

  /** The opcodes of `SequenceMatcher(None, a, b)`: a chain that covers both
      sequences to their ends. */
  predicate IsOpcodes<T(==)>(ops: seq<Opcode>, a: seq<T>, b: seq<T>) {
    Chain(ops, a, b) && EndA(ops) == |a| && EndB(ops) == |b|
  }

  predicate IsEdit(o: Opcode) {
    o.tag != Equal
  }

  /** The opcodes whose tag is not `equal`, in order. */
  function Edits(ops: seq<Opcode>): seq<Opcode> {
    if ops == [] then []
    else
      var o := ops[|ops| - 1];
      Edits(ops[..|ops| - 1]) + (if IsEdit(o) then [o] else [])
  }

  /** The changes are opcodes of the list, none of them `equal`. */
  lemma {:induction false} EditsAreOps(ops: seq<Opcode>)
    ensures |Edits(ops)| <= |ops|
    ensures forall k :: 0 <= k < |Edits(ops)| ==> Edits(ops)[k] in ops && IsEdit(Edits(ops)[k])
  {
    if ops != [] {
      var init := ops[..|ops| - 1];
      EditsAreOps(init);
      assert forall o :: o in init ==> o in ops;
    }
  }

  /** Every opcode that is not `equal` is one of the changes. */
  lemma {:induction false} EditsComplete(ops: seq<Opcode>, o: Opcode)
    requires o in ops && IsEdit(o)
    ensures o in Edits(ops)
  {
    var init := ops[..|ops| - 1];
    if o != ops[|ops| - 1] {
      assert ops == init + [ops[|ops| - 1]];
      EditsComplete(init, o);
    }
  }

  /** How many elements of `a`, and of `b`, the `equal` opcodes cover. */
  function EqualSpan(ops: seq<Opcode>): nat {
    if ops == [] then 0
    else
      var o := ops[|ops| - 1];
      EqualSpan(ops[..|ops| - 1]) + (if IsEdit(o) || o.i2 < o.i1 then 0 else o.i2 - o.i1)
  }

  /** How many elements of `a` the other opcodes cover. */
  function EditSpanA(ops: seq<Opcode>): nat {
    if ops == [] then 0
    else
      var o := ops[|ops| - 1];
      EditSpanA(ops[..|ops| - 1]) + (if !IsEdit(o) || o.i2 < o.i1 then 0 else o.i2 - o.i1)
  }

  /** How many elements of `b` the other opcodes cover. */
  function EditSpanB(ops: seq<Opcode>): nat {
    if ops == [] then 0
    else
      var o := ops[|ops| - 1];
      EditSpanB(ops[..|ops| - 1]) + (if !IsEdit(o) || o.j2 < o.j1 then 0 else o.j2 - o.j1)
  }

  /** Every opcode of a chain lies within both sequences and within the
      chain's end. */
  lemma {:induction false} ChainBounds<T>(ops: seq<Opcode>, a: seq<T>, b: seq<T>)
    requires Chain(ops, a, b)
    ensures EndA(ops) <= |a| && EndB(ops) <= |b|
    ensures forall k :: 0 <= k < |ops| ==>
      ops[k].i1 <= ops[k].i2 <= EndA(ops) && ops[k].j1 <= ops[k].j2 <= EndB(ops)
  {
    if ops != [] {
      var init := ops[..|ops| - 1];
      ChainBounds(init, a, b);
      assert forall k :: 0 <= k < |init| ==> ops[k] == init[k];
    }
  }

  /** The `equal` opcodes and the others together cover each sequence up to the
      chain's end. */
  lemma {:induction false} ChainSpans<T>(ops: seq<Opcode>, a: seq<T>, b: seq<T>)
    requires Chain(ops, a, b)
    ensures EndA(ops) == EqualSpan(ops) + EditSpanA(ops)
    ensures EndB(ops) == EqualSpan(ops) + EditSpanB(ops)
  {
    if ops != [] {
      var o := ops[|ops| - 1];
      ChainSpans(ops[..|ops| - 1], a, b);
      if !IsEdit(o) {
        assert |a[o.i1..o.i2]| == |b[o.j1..o.j2]|;
      }
    }
  }

  /** Two sequences have no opcode besides `equal` exactly when the changes
      cover nothing. */
  lemma {:induction false} NoEditsIffNoSpan<T>(ops: seq<Opcode>, a: seq<T>, b: seq<T>)
    requires Chain(ops, a, b)
    ensures Edits(ops) == [] <==> EditSpanA(ops) + EditSpanB(ops) == 0
  {
    if ops != [] {
      NoEditsIffNoSpan(ops[..|ops| - 1], a, b);
    }
  }

  /** Replace `a[lo:hi]` by `repl`. */
  datatype Edit<T> = Edit(lo: nat, hi: nat, repl: seq<T>)

  /** The result of applying `edits`, in order, to `a`, up to position `hi` of
      `a`: between and after the edits the elements of `a` are copied. */
  function Patch<T>(a: seq<T>, edits: seq<Edit<T>>, hi: nat): seq<T> {
    if edits == [] then Slice(a, 0, hi)
    else
      var e := edits[|edits| - 1];
      Patch(a, edits[..|edits| - 1], e.lo) + e.repl + Slice(a, e.hi, hi)
  }

  /** Where the last edit ends in `a`. */
  function LastHi<T>(edits: seq<Edit<T>>): nat {
    if edits == [] then 0 else edits[|edits| - 1].hi
  }

  /** The edits that turn `a` into `b`, one per opcode that is not `equal`:
      replace `a[i1:i2]` by `b[j1:j2]`. */
  function OpEdits<T>(b: seq<T>, ops: seq<Opcode>): seq<Edit<T>> {
    if ops == [] then []
    else
      var o := ops[|ops| - 1];
      OpEdits(b, ops[..|ops| - 1]) + (if IsEdit(o) then [Edit(o.i1, o.i2, Slice(b, o.j1, o.j2))] else [])
  }

  /** One edit per change. */
  lemma {:induction false} OpEditsCount<T>(b: seq<T>, ops: seq<Opcode>)
    ensures |OpEdits(b, ops)| == |Edits(ops)|
  {
    if ops != [] {
      OpEditsCount(b, ops[..|ops| - 1]);
    }
  }

  /** Past the last edit, patching further copies `a`. */
  lemma PatchExtend<T>(a: seq<T>, edits: seq<Edit<T>>, h: nat, h': nat)
    requires LastHi(edits) <= h <= h' <= |a|
    ensures Patch(a, edits, h') == Patch(a, edits, h) + a[h..h']
  {
    if edits != [] {
      var e := edits[|edits| - 1];
      assert a[e.hi..h'] == a[e.hi..h] + a[h..h'];
    } else {
      assert a[..h'] == a[..h] + a[h..h'];
    }
  }

  lemma {:induction false} OpEditsEnd<T>(ops: seq<Opcode>, a: seq<T>, b: seq<T>)
    requires Chain(ops, a, b)
    ensures LastHi(OpEdits(b, ops)) <= EndA(ops)
  {
    if ops != [] {
      OpEditsEnd(ops[..|ops| - 1], a, b);
    }
  }

  lemma {:induction false} PatchChain<T>(ops: seq<Opcode>, a: seq<T>, b: seq<T>)
    requires Chain(ops, a, b)
    ensures Patch(a, OpEdits(b, ops), EndA(ops)) == b[..EndB(ops)]
  {
    if ops != [] {
      var init, o := ops[..|ops| - 1], ops[|ops| - 1];
      var es := OpEdits(b, init);
      PatchChain(init, a, b);
      ChainBounds(init, a, b);
      OpEditsEnd(init, a, b);
      assert b[..o.j2] == b[..o.j1] + b[o.j1..o.j2];
      if IsEdit(o) {
        var es' := es + [Edit(o.i1, o.i2, b[o.j1..o.j2])];
        assert es'[..|es'| - 1] == es;
        assert Patch(a, es', o.i2) == Patch(a, es, o.i1) + b[o.j1..o.j2] + [];
      } else {
        assert OpEdits(b, ops) == es;
        assert a[o.i1..o.i2] == b[o.j1..o.j2];
        PatchExtend(a, es, o.i1, o.i2);
        assert Patch(a, es, o.i2) == b[..o.j1] + b[o.j1..o.j2];
      }
    }
  }

  /** The opcodes are a patch: applying their changes to `a` gives `b`. */
  lemma PatchRoundTrip<T>(ops: seq<Opcode>, a: seq<T>, b: seq<T>)
    requires IsOpcodes(ops, a, b)
    ensures Patch(a, OpEdits(b, ops), |a|) == b
  {
    PatchChain(ops, a, b);
  }
}
