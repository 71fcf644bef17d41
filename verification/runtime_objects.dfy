/** Objects built at compile time and placed in the `.data` section
    (`RuntimeObjects`, `RuntimeObjectSerializer`).

    The label table is a `HashMap` from objects to labels, where each new
    object gets `"object" + size`. Since every label is fixed by the number
    of objects labelled before it, the table is kept here as the sequence
    of labelled objects in labelling order: the object at index i carries
    `"object" + i`.

    Objects are references into a heap. Keys are compared by identity, which
    is what `HashMap` does for arrays; for any other object it asks
    `equals`, which the model does not see, and compares by identity too. */
module RuntimeObjects {
  import opened Wrappers
  import opened JavaInts
  import opened Text

  /** A reference: `null` or an object of the heap. */
  datatype Ref = Null | Obj(id: nat)

  /** The shapes the serializer distinguishes; `Opaque` is any other object,
      with the text its `toString` gives. */
  datatype Shape = Bytes(bytes: seq<SByte>) | Refs(elements: seq<Ref>) | Opaque(text: string)

  type Heap = map<nat, Shape>

  /** The reference is `null` or points to an existing object. */
  predicate Valid(heap: Heap, k: Ref) {
    k.Null? || k.id in heap
  }

  /** No reference of the heap dangles. */
  predicate Closed(heap: Heap) {
    forall id, e | id in heap && heap[id].Refs? && e in heap[id].elements :: Valid(heap, e)
  }

  /** The references held by an object: the elements of an `Object[]`,
      nothing otherwise. */
  function Children(heap: Heap, k: Ref): seq<Ref>
    requires Valid(heap, k)
  {
    if k.Obj? && heap[k.id].Refs? then heap[k.id].elements else []
  }

  /** The objects the serializer refuses. */
  predicate Unserializable(heap: Heap, k: Ref)
    requires Valid(heap, k)
  {
    k.Obj? && heap[k.id].Opaque?
  }

  /** The elements of a list, as a set. */
  function Elems<T>(s: seq<T>): set<T> {
    set k | k in s
  }

  ghost predicate Distinct<T>(s: seq<T>) {
    forall i, j | 0 <= i < j < |s| :: s[i] != s[j]
  }

  /** The label of the object labelled as the n-th. */
  function Label(n: nat): (r: string)
    ensures |r| > 6 && r[..6] == "object"
  {
    "object" + NatToString(n)
  }

  /** The position of `k` in the table. */
  function IndexIn(t: seq<Ref>, k: Ref): (i: nat)
    requires k in t
    ensures i < |t| && t[i] == k && forall j | 0 <= j < i :: t[j] != k
  {
    if t[0] == k then 0
    else
      var j := IndexIn(t[1..], k);
      assert t[..1 + j] == [t[0]] + t[1..][..j];
      1 + j
  }

  /** The label the table holds for `k`. */
  function LabelOf(t: seq<Ref>, k: Ref): string
    requires k in t
  {
    Label(IndexIn(t, k))
  }

  /** The table grows only at its end. */
  predicate Extends(t: seq<Ref>, u: seq<Ref>) {
    |t| <= |u| && u[..|t|] == t
  }

  lemma ExtendsTransitive(a: seq<Ref>, b: seq<Ref>, c: seq<Ref>)
    requires Extends(a, b) && Extends(b, c)
    ensures Extends(a, c)
  {
    assert c[..|a|] == c[..|b|][..|a|];
  }

  /** Different labelled objects carry different labels. */
  lemma LabelsInjective(t: seq<Ref>, k1: Ref, k2: Ref)
    requires Distinct(t) && k1 in t && k2 in t && k1 != k2
    ensures LabelOf(t, k1) != LabelOf(t, k2)
  {
    if LabelOf(t, k1) == LabelOf(t, k2) {
      PrefixedNumberInjective("object", IndexIn(t, k1), IndexIn(t, k2));
    }
  }

  /** A label, once given, survives every later growth of the table. */
  lemma {:induction false} LabelStable(t: seq<Ref>, u: seq<Ref>, k: Ref)
    requires Extends(t, u) && k in t
    ensures k in u && LabelOf(u, k) == LabelOf(t, k)
  {
    var i := IndexIn(t, k);
    assert t[..i] == u[..i];
    assert u[i] == k;
  }

  /** `getLabel`: the label of a known object, or a new label
      `"object" + size` for an object not yet in the table. */
  function GetLabel(t: seq<Ref>, k: Ref): (r: (seq<Ref>, string))
    requires Distinct(t)
    ensures Extends(t, r.0) && Distinct(r.0)
    ensures k in r.0 && r.1 == LabelOf(r.0, k)
    ensures k in t ==> r.0 == t
    ensures k !in t ==> r.0 == t + [k] && r.1 == Label(|t|)
  {
    if k in t then (t, LabelOf(t, k))
    else
      var u := t + [k];
      assert u[..|t|] == t;
      assert IndexIn(u, k) == |t|;
      (u, Label(|t|))
  }

  /** Asking again for the same object answers the same label and leaves
      the table alone. */
  lemma GetLabelIdempotent(t: seq<Ref>, k: Ref)
    requires Distinct(t)
    ensures GetLabel(GetLabel(t, k).0, k) == GetLabel(t, k)
  {
  }

  /** Asking for other objects never changes the label of one already
      labelled. */
  lemma GetLabelKeepsLabels(t: seq<Ref>, k: Ref, other: Ref)
    requires Distinct(t) && other in t
    ensures other in GetLabel(t, k).0 && LabelOf(GetLabel(t, k).0, other) == LabelOf(t, other)
  {
    LabelStable(t, GetLabel(t, k).0, other);
  }

  /** The label of every element of `es`, requested in order. */
  function LabelAll(t: seq<Ref>, es: seq<Ref>): (r: (seq<Ref>, seq<string>))
    requires Distinct(t)
    ensures Extends(t, r.0) && Distinct(r.0)
    ensures forall e | e in es :: e in r.0
    ensures forall k | k in r.0 :: k in t || k in es
    ensures |r.1| == |es|
    ensures forall i | 0 <= i < |es| :: r.1[i] == LabelOf(r.0, es[i])
    decreases |es|
  {
    if |es| == 0 then (t, [])
    else
      var (u, first) := GetLabel(t, es[0]);
      var (v, rest) := LabelAll(u, es[1..]);
      LabelAllStep(t, es, u, first, v, rest);
      (v, [first] + rest)
  }

  /** Labelling the first element, then the rest, labels them all. */
  lemma LabelAllStep(t: seq<Ref>, es: seq<Ref>, u: seq<Ref>, first: string, v: seq<Ref>, rest: seq<string>)
    requires Distinct(t) && |es| > 0 && (u, first) == GetLabel(t, es[0])
    requires Extends(u, v) && Distinct(v)
    requires forall e | e in es[1..] :: e in v
    requires forall k | k in v :: k in u || k in es[1..]
    requires |rest| == |es| - 1
    requires forall i | 0 <= i < |es| - 1 :: rest[i] == LabelOf(v, es[1..][i])
    ensures Extends(t, v)
    ensures forall e | e in es :: e in v
    ensures forall k | k in v :: k in t || k in es
    ensures forall i | 0 <= i < |es| :: ([first] + rest)[i] == LabelOf(v, es[i])
  {
    LabelStable(u, v, es[0]);
    assert forall k | k in es[1..] :: k in es;
    ExtendsTransitive(t, u, v);
    assert forall i | 1 <= i < |es| :: ([first] + rest)[i] == rest[i - 1] && es[i] == es[1..][i - 1];
  }

  /** The labels of `es` in a table that holds all of them. */
  function LabelsOf(t: seq<Ref>, es: seq<Ref>): (r: seq<string>)
    requires forall e | e in es :: e in t
    ensures |r| == |es|
  {
    seq(|es|, i requires 0 <= i < |es| => LabelOf(t, es[i]))
  }

  /** The decimal text of every byte read as unsigned. */
  function ByteTexts(bs: seq<SByte>): (r: seq<string>)
    ensures |r| == |bs|
  {
    seq(|bs|, i requires 0 <= i < |bs| => NatToString(Unsigned(bs[i])))
  }

  /** Every printed byte reads back as a number from 0 to 255. */
  lemma ByteTextsInRange(bs: seq<SByte>, i: nat)
    requires i < |bs|
    ensures ParseDigits(ByteTexts(bs)[i]) < 0x100
    ensures ParseDigits(ByteTexts(bs)[i]) == (if bs[i] < 0 then bs[i] as int + 0x100 else bs[i] as int)
  {
    ParseNatToString(Unsigned(bs[i]));
  }

  /** Every object the table holds has all of its elements labelled too. */
  predicate ChildrenLabelled(heap: Heap, t: seq<Ref>, ks: seq<Ref>)
    requires forall k | k in ks :: Valid(heap, k)
  {
    forall k, e | k in ks && e in Children(heap, k) :: e in t
  }

  /** The lines of one object, once its elements have labels in `t`. */
  function Render(heap: Heap, t: seq<Ref>, k: Ref): seq<string>
    requires Valid(heap, k) && !Unserializable(heap, k)
    requires forall e | e in Children(heap, k) :: e in t
  {
    match k
    case Null => ["\t.word 0"]
    case Obj(id) =>
      match heap[id]
      case Bytes(bs) =>
        ["\t.word 0", "\t.word " + NatToString(|bs|), "\t.byte " + Join(ByteTexts(bs), ", ")]
      case Refs(es) =>
        ["\t.word 0", "\t.word " + NatToString(|es|), "\t.word " + Join(LabelsOf(t, es), ", ")]
  }

  /** Rendering does not change when the table grows. */
  lemma RenderStable(heap: Heap, t: seq<Ref>, u: seq<Ref>, k: Ref)
    requires Valid(heap, k) && !Unserializable(heap, k)
    requires forall e | e in Children(heap, k) :: e in t
    requires Extends(t, u)
    ensures forall e | e in Children(heap, k) :: e in u
    ensures Render(heap, u, k) == Render(heap, t, k)
  {
    forall e | e in Children(heap, k) ensures e in u && LabelOf(u, e) == LabelOf(t, e) {
      LabelStable(t, u, e);
    }
    if k.Obj? && heap[k.id].Refs? {
      var es := heap[k.id].elements;
      assert LabelsOf(u, es) == LabelsOf(t, es);
    }
  }

  /** `serialize`: the lines for one object; the elements of an `Object[]`
      are labelled in order, which may add them to the table. */
  function Serialize(heap: Heap, t: seq<Ref>, k: Ref): (r: Result<(seq<Ref>, seq<string>)>)
    requires Distinct(t) && Valid(heap, k)
    ensures r.Ok? <==> !Unserializable(heap, k)
    ensures r.Err? ==> r.error == Runtime("cannot serialize for runtime: " + heap[k.id].text)
    ensures r.Ok? ==> Extends(t, r.value.0) && Distinct(r.value.0)
    ensures r.Ok? ==> forall e | e in Children(heap, k) :: e in r.value.0
    ensures r.Ok? ==> forall e | e in r.value.0 :: e in t || e in Children(heap, k)
    ensures r.Ok? ==> r.value.1 == Render(heap, r.value.0, k)
  {
    match k
    case Null => Ok((t, ["\t.word 0"]))
    case Obj(id) =>
      match heap[id]
      case Bytes(bs) =>
        Ok((t, ["\t.word 0", "\t.word " + NatToString(|bs|), "\t.byte " + Join(ByteTexts(bs), ", ")]))
      case Refs(es) =>
        var (u, labels) := LabelAll(t, es);
        assert labels == LabelsOf(u, es);
        Ok((u, ["\t.word 0", "\t.word " + NatToString(|es|), "\t.word " + Join(labels, ", ")]))
      case Opaque(text) => Err(Runtime("cannot serialize for runtime: " + text))
  }

  /** `null` is one zero word. */
  lemma SerializeNull(heap: Heap, t: seq<Ref>)
    requires Distinct(t)
    ensures Serialize(heap, t, Null) == Ok((t, ["\t.word 0"]))
  {
  }

  /** An `Object[]` lists exactly one entry per element: the elements'
      labels contain no comma, so the entry line has one comma fewer than
      there are elements. */
  lemma ObjectArrayEntryCount(heap: Heap, t: seq<Ref>, id: nat)
    requires Distinct(t) && id in heap && heap[id].Refs? && |heap[id].elements| > 0
    ensures Serialize(heap, t, Obj(id)).Ok?
    ensures var lines := Serialize(heap, t, Obj(id)).value.1;
      |lines| == 3 && lines[2][..7] == "\t.word " &&
      Count(lines[2][7..], ',') + 1 == |heap[id].elements|
  {
    var (u, lines) := Serialize(heap, t, Obj(id)).value;
    var labels := LabelsOf(u, heap[id].elements);
    forall i | 0 <= i < |labels| ensures ',' !in labels[i] {
      LabelHasNoComma(IndexIn(u, heap[id].elements[i]));
    }
    JoinCommaCount(labels);
    assert lines[2][7..] == Join(labels, ", ");
  }

  lemma LabelHasNoComma(n: nat)
    ensures ',' !in Label(n)
  {
    var s := NatToString(n);
    assert forall i | 0 <= i < |s| :: IsDigit(s[i]);
    assert Label(n) == "object" + s;
  }

  /** Joining comma-free items with ", " puts a comma between each
      neighbouring pair and nowhere else. */
  lemma {:induction false} JoinCommaCount(items: seq<string>)
    requires |items| > 0
    requires forall i | 0 <= i < |items| :: ',' !in items[i]
    ensures Count(Join(items, ", "), ',') + 1 == |items|
    decreases |items|
  {
    assert Count(items[0], ',') == 0;
    if |items| > 1 {
      JoinCommaCount(items[1..]);
      var rest := Join(items[1..], ", ");
      CountAppend(items[0], ", ", ',');
      CountAppend(items[0] + ", ", rest, ',');
      assert Count(", ", ',') == 1 by {
        assert ", "[..1] == ",";
        assert ","[..0] == "";
      }
    }
  }

  lemma {:induction false} CountAppend(a: string, b: string, c: char)
    ensures Count(a + b, c) == Count(a, c) + Count(b, c)
    decreases |b|
  {
    if |b| > 0 {
      CountAppend(a, b[..|b| - 1], c);
      assert (a + b)[..|a + b| - 1] == a + b[..|b| - 1];
    } else {
      assert a + b == a;
    }
  }

  /** The lines `emit` writes before the objects. */
  const Header: seq<string> := ["//", "// runtime objects", "//", "", ".data"]

  /** The lines of the emitted objects, each a `label:` line followed by its
      serialization. */
  function Blocks(heap: Heap, t: seq<Ref>, ks: seq<Ref>): seq<string>
    requires forall k | k in ks :: k in t && Valid(heap, k) && !Unserializable(heap, k)
    requires ChildrenLabelled(heap, t, ks)
  {
    if |ks| == 0 then []
    else Blocks(heap, t, ks[..|ks| - 1]) + [LabelOf(t, ks[|ks| - 1]) + ":"] + Render(heap, t, ks[|ks| - 1])
  }

  /** Blocks do not change when the table grows. */
  lemma {:induction false} BlocksStable(heap: Heap, t: seq<Ref>, u: seq<Ref>, ks: seq<Ref>)
    requires forall k | k in ks :: k in t && Valid(heap, k) && !Unserializable(heap, k)
    requires ChildrenLabelled(heap, t, ks)
    requires Extends(t, u)
    ensures forall k | k in ks :: k in u
    ensures ChildrenLabelled(heap, u, ks)
    ensures Blocks(heap, u, ks) == Blocks(heap, t, ks)
    decreases |ks|
  {
    forall k | k in ks ensures k in u {
      LabelStable(t, u, k);
    }
    forall k, e | k in ks && e in Children(heap, k) ensures e in u {
      LabelStable(t, u, e);
    }
    if |ks| > 0 {
      var last := ks[|ks| - 1];
      assert forall k | k in ks[..|ks| - 1] :: k in ks;
      BlocksStable(heap, t, u, ks[..|ks| - 1]);
      LabelStable(t, u, last);
      RenderStable(heap, t, u, last);
    }
  }

  /** What `emit` produced: the final table, the order the objects were
      written in (a `HashMap` order, which the model does not fix), and the
      lines. */
  datatype Emission = Emission(table: seq<Ref>, order: seq<Ref>, lines: seq<string>)

  /** Every reference that can exist in the heap. */
  function Universe(heap: Heap): (u: set<Ref>)
    ensures forall k :: Valid(heap, k) <==> k in u
  {
    var u := {Null} + set id | id in heap :: Obj(id);
    assert forall k: Ref | k.Obj? && k.id in heap :: Obj(k.id) in u;
    u
  }

  /** `k` is an element of one of the objects in `ks`. */
  ghost predicate Reached(heap: Heap, ks: seq<Ref>, k: Ref) {
    exists q | q in ks && Valid(heap, q) :: k in Children(heap, q)
  }

  /** A chain of references that starts at an object of `t0` and goes on
      from each object to one of its elements. */
  ghost predicate Chain(heap: Heap, t0: seq<Ref>, path: seq<Ref>) {
    && |path| > 0 && path[0] in t0
    && (forall i | 0 <= i < |path| :: Valid(heap, path[i]))
    && (forall i | 0 <= i < |path| - 1 :: path[i + 1] in Children(heap, path[i]))
  }

  /** `k` is one of the objects `emit` may have to write for the table
      `t0`: it is in `t0`, or an element of such an object. */
  ghost predicate ReachableFrom(heap: Heap, t0: seq<Ref>, k: Ref) {
    exists path :: Chain(heap, t0, path) && path[|path| - 1] == k
  }

  lemma StartReachable(heap: Heap, t0: seq<Ref>, k: Ref)
    requires k in t0 && Valid(heap, k)
    ensures ReachableFrom(heap, t0, k)
  {
    assert Chain(heap, t0, [k]);
  }

  /** An element of a reachable object is reachable. */
  lemma ChildReachable(heap: Heap, t0: seq<Ref>, q: Ref, k: Ref)
    requires Closed(heap) && Valid(heap, q) && ReachableFrom(heap, t0, q) && k in Children(heap, q)
    ensures ReachableFrom(heap, t0, k)
  {
    var path :| Chain(heap, t0, path) && path[|path| - 1] == q;
    var longer := path + [k];
    assert forall i | 0 <= i < |path| :: longer[i] == path[i];
    assert Chain(heap, t0, longer);
  }

  /** A table that holds `t0` and the elements of each of its objects holds
      every object reachable from `t0`. */
  lemma ClosedTableHoldsReachable(heap: Heap, t0: seq<Ref>, t: seq<Ref>, k: Ref)
    requires forall x | x in t0 :: x in t
    requires forall x | x in t :: Valid(heap, x)
    requires ChildrenLabelled(heap, t, t)
    requires ReachableFrom(heap, t0, k)
    ensures k in t
  {
    var path :| Chain(heap, t0, path) && path[|path| - 1] == k;
    var i := 0;
    while i < |path| - 1
      invariant 0 <= i < |path| && path[i] in t
    {
      i := i + 1;
    }
  }

  /** The state of `emit` between two objects: the table, the objects
      written so far, and the lines written for them. */
  datatype Progress = Progress(table: seq<Ref>, written: seq<Ref>, body: seq<string>)

  /** What holds of that state throughout: the table only grew from `t0`,
      and only by elements of written objects, so it holds only objects
      reachable from `t0`; every written object is
      labelled, serializable, has its elements labelled, and its lines are
      in `body` in the order written. */
  ghost predicate Consistent(heap: Heap, t0: seq<Ref>, p: Progress) {
    Extends(t0, p.table) && Distinct(p.table) && Distinct(p.written) &&
    (forall k | k in p.table :: Valid(heap, k)) &&
    (forall k | k in p.written :: k in p.table && Valid(heap, k) && !Unserializable(heap, k)) &&
    (forall k | k in p.table :: k in t0 || Reached(heap, p.written, k)) &&
    (forall k | k in p.table :: ReachableFrom(heap, t0, k)) &&
    ChildrenLabelled(heap, p.table, p.written) &&
    p.body == Blocks(heap, p.table, p.written)
  }

  /** The error `serialize` raises for `k`. */
  predicate SerializeError(heap: Heap, k: Ref, e: Exception) {
    Valid(heap, k) && Unserializable(heap, k) && e == Runtime("cannot serialize for runtime: " + heap[k.id].text)
  }

  /** One step of the inner loop of `emit` for an object not written yet:
      print its `label:` line, then serialize it. */
  function WriteObject(heap: Heap, t0: seq<Ref>, p: Progress, k: Ref): (r: Result<Progress>)
    requires Closed(heap) && Consistent(heap, t0, p) && k in p.table && k !in p.written
    ensures r.Ok? <==> !Unserializable(heap, k)
    ensures r.Err? ==> SerializeError(heap, k, r.error)
    ensures r.Ok? ==> Consistent(heap, t0, r.value) && Extends(p.table, r.value.table)
    ensures r.Ok? ==> r.value.written == p.written + [k]
  {
    var name := LabelOf(p.table, k);
    var (u, lines) :- Serialize(heap, p.table, k);
    WriteObjectConsistent(heap, t0, p, k, u, lines);
    Ok(Progress(u, p.written + [k], p.body + [name + ":"] + lines))
  }

  lemma WriteObjectConsistent(heap: Heap, t0: seq<Ref>, p: Progress, k: Ref, u: seq<Ref>, lines: seq<string>)
    requires Closed(heap) && Consistent(heap, t0, p) && k in p.table && k !in p.written
    requires Serialize(heap, p.table, k) == Ok((u, lines))
    ensures Consistent(heap, t0, Progress(u, p.written + [k], p.body + [LabelOf(p.table, k) + ":"] + lines))
  {
    DistinctSnoc(p.written, k);
    ExtendsTransitive(t0, p.table, u);
    WrittenObjectsReached(heap, t0, p, k, u);
    WrittenLines(heap, t0, p, k, u, lines);
  }

  /** A new element at the end keeps a sequence free of repeats. */
  lemma DistinctSnoc<T>(s: seq<T>, x: T)
    requires Distinct(s) && x !in s
    ensures Distinct(s + [x])
  {
  }

  /** After writing `k`, the table holds only valid references, each given
      at the start or reached from a written object. */
  lemma WrittenObjectsReached(heap: Heap, t0: seq<Ref>, p: Progress, k: Ref, u: seq<Ref>)
    requires Closed(heap) && Consistent(heap, t0, p) && k in p.table && k !in p.written
    requires Extends(p.table, u) && forall x | x in u :: x in p.table || x in Children(heap, k)
    ensures forall x | x in u :: Valid(heap, x) && (x in t0 || Reached(heap, p.written + [k], x))
    ensures forall x | x in u :: ReachableFrom(heap, t0, x)
  {
    var written := p.written + [k];
    forall x | x in u ensures ReachableFrom(heap, t0, x) {
      if x !in p.table {
        ChildReachable(heap, t0, k, x);
      }
    }
    forall x | x in u ensures Valid(heap, x) && (x in t0 || Reached(heap, written, x)) {
      if x in p.table {
        if x !in t0 {
          var q :| q in p.written && Valid(heap, q) && x in Children(heap, q);
          assert q in written;
        }
      } else {
        assert x in Children(heap, k) && k in written;
      }
    }
  }

  /** After writing `k`, every written object has its elements labelled
      and the lines are the blocks of the written objects. */
  lemma WrittenLines(heap: Heap, t0: seq<Ref>, p: Progress, k: Ref, u: seq<Ref>, lines: seq<string>)
    requires Closed(heap) && Consistent(heap, t0, p) && k in p.table && k !in p.written
    requires Serialize(heap, p.table, k) == Ok((u, lines))
    ensures forall x | x in p.written + [k] :: x in u && Valid(heap, x) && !Unserializable(heap, x)
    ensures ChildrenLabelled(heap, u, p.written + [k])
    ensures p.body + [LabelOf(p.table, k) + ":"] + lines == Blocks(heap, u, p.written + [k])
  {
    var written := p.written + [k];
    BlocksStable(heap, p.table, u, p.written);
    LabelStable(p.table, u, k);
    assert written[..|written| - 1] == p.written;
  }

  /** The inner loop of `emit`: every object of the snapshot `batch` that
      was not written yet is written, in an order the model leaves open. */
  method WriteBatch(heap: Heap, t0: seq<Ref>, p0: Progress, batch: seq<Ref>) returns (r: Result<Progress>)
    requires Closed(heap) && Consistent(heap, t0, p0) && batch == p0.table
    ensures r.Err? ==> exists k | k in batch :: SerializeError(heap, k, r.error)
    ensures r.Ok? ==> Consistent(heap, t0, r.value) && Extends(p0.written, r.value.written)
    ensures r.Ok? ==> forall k | k in batch :: k in r.value.written
  {
    var p := p0;
    var remaining := Elems(batch);
    while remaining != {}
      invariant Consistent(heap, t0, p) && Extends(batch, p.table) && Extends(p0.written, p.written)
      invariant remaining <= Elems(batch)
      invariant forall k | k in batch && k !in remaining :: k in p.written
      decreases remaining
    {
      var k :| k in remaining;
      remaining := remaining - {k};
      if k !in p.written {
        LabelStable(batch, p.table, k);
        var next := WriteObject(heap, t0, p, k);
        if next.Err? {
          assert k in batch && SerializeError(heap, k, next.error);
          return Err(next.error);
        }
        assert next.value.written[..|p.written|] == p.written;
        ExtendsTransitive(p0.written, p.written, next.value.written);
        ExtendsTransitive(batch, p.table, next.value.table);
        p := next.value;
      }
    }
    return Ok(p);
  }

  /** `emit`: repeatedly snapshot the table and write every object of the
      snapshot that was not written yet, until every labelled object,
      including those labelled while serializing, has been written. It
      fails exactly when some object reachable from the table cannot be
      serialized, and then with that object's error. */
  method Emit(heap: Heap, t0: seq<Ref>) returns (r: Result<Emission>)
    requires Closed(heap) && Distinct(t0)
    requires forall k | k in t0 :: Valid(heap, k)
    ensures r.Err? ==> exists k | ReachableFrom(heap, t0, k) :: SerializeError(heap, k, r.error)
    ensures r.Ok? ==> forall k | ReachableFrom(heap, t0, k) :: k in r.value.table
    ensures r.Err? <==> exists k | ReachableFrom(heap, t0, k) :: Valid(heap, k) && Unserializable(heap, k)
    ensures r.Ok? ==> var e := r.value;
      Extends(t0, e.table) && Distinct(e.table) &&
      Distinct(e.order) && |e.order| == |e.table| &&
      (forall k :: k in e.order <==> k in e.table) &&
      (forall k | k in e.table :: Valid(heap, k) && !Unserializable(heap, k)) &&
      (forall k | k in e.table :: k in t0 || Reached(heap, e.table, k)) &&
      ChildrenLabelled(heap, e.table, e.table) &&
      e.lines == Header + Blocks(heap, e.table, e.order) + [""]
  {
    var p := WriteAll(heap, t0);
    if p.Err? {
      return Err(p.error);
    }
    Finished(heap, t0, p.value);
    r := Ok(Emission(p.value.table, p.value.written, Header + p.value.body + [""]));
  }

  /** The outer loop of `emit`: rounds of `WriteBatch` until no labelled
      object is left unwritten. */
  method WriteAll(heap: Heap, t0: seq<Ref>) returns (r: Result<Progress>)
    requires Closed(heap) && Distinct(t0)
    requires forall k | k in t0 :: Valid(heap, k)
    ensures r.Err? ==> exists k | ReachableFrom(heap, t0, k) :: SerializeError(heap, k, r.error)
    ensures r.Err? ==> exists k | ReachableFrom(heap, t0, k) :: Valid(heap, k) && Unserializable(heap, k)
    ensures r.Ok? ==> Consistent(heap, t0, r.value) && |r.value.written| >= |r.value.table|
  {
    var p := Progress(t0, [], []);
    InitialConsistent(heap, t0);
    var bound := |Universe(heap)|;
    while |p.written| < |p.table|
      invariant Consistent(heap, t0, p)
      decreases bound - |p.written|
    {
      var next := Round(heap, t0, p);
      if next.Err? {
        return Err(next.error);
      }
      p := next.value;
    }
    return Ok(p);
  }

  /** One round of the outer loop: the snapshot of the table is written,
      which writes at least one more object. */
  method Round(heap: Heap, t0: seq<Ref>, p: Progress) returns (r: Result<Progress>)
    requires Closed(heap) && Consistent(heap, t0, p) && |p.written| < |p.table|
    ensures r.Err? ==> exists k | ReachableFrom(heap, t0, k) :: SerializeError(heap, k, r.error)
    ensures r.Err? ==> exists k | ReachableFrom(heap, t0, k) :: Valid(heap, k) && Unserializable(heap, k)
    ensures r.Ok? ==> Consistent(heap, t0, r.value) && |p.written| < |r.value.written| <= |Universe(heap)|
  {
    var w := UnemittedWitness(p.written, p.table);
    r := WriteBatch(heap, t0, p, p.table);
    if r.Err? {
      FailureReachable(heap, t0, p, r.error);
      return;
    }
    assert w in r.value.written && w !in p.written;
    DistinctBound(r.value.written, Universe(heap));
  }

  /** Before anything is written, the starting table is consistent. */
  lemma InitialConsistent(heap: Heap, t0: seq<Ref>)
    requires Distinct(t0) && forall k | k in t0 :: Valid(heap, k)
    ensures Consistent(heap, t0, Progress(t0, [], []))
  {
    forall k | k in t0 ensures ReachableFrom(heap, t0, k) {
      StartReachable(heap, t0, k);
    }
    assert t0[..|t0|] == t0;
  }

  /** When the loop of `emit` stops, every labelled object was written. */
  lemma Finished(heap: Heap, t0: seq<Ref>, p: Progress)
    requires Consistent(heap, t0, p) && |p.written| >= |p.table|
    ensures |p.written| == |p.table| && forall k :: k in p.written <==> k in p.table
    ensures forall k | k in p.table :: k in t0 || Reached(heap, p.table, k)
    ensures forall k | ReachableFrom(heap, t0, k) :: k in p.table
  {
    SameElements(p.written, p.table);
    forall k | k in p.table && k !in t0 ensures Reached(heap, p.table, k) {
      var q :| q in p.written && Valid(heap, q) && k in Children(heap, q);
    }
    assert forall x | x in t0 :: x in p.table by {
      forall x | x in t0 ensures x in p.table {
        assert p.table[..|t0|] == t0;
      }
    }
    forall k | ReachableFrom(heap, t0, k) ensures k in p.table {
      ClosedTableHoldsReachable(heap, t0, p.table, k);
    }
  }

  /** A failure on an object of the table is a failure on an object
      reachable from the starting table. */
  lemma FailureReachable(heap: Heap, t0: seq<Ref>, p: Progress, e: Exception)
    requires Consistent(heap, t0, p)
    requires exists k | k in p.table :: SerializeError(heap, k, e)
    ensures exists k | ReachableFrom(heap, t0, k) :: SerializeError(heap, k, e)
    ensures exists k | ReachableFrom(heap, t0, k) :: Valid(heap, k) && Unserializable(heap, k)
  {
    var k :| k in p.table && SerializeError(heap, k, e);
    assert ReachableFrom(heap, t0, k);
  }

  /** While fewer objects were written than labelled, some labelled object
      is still unwritten. */
  lemma UnemittedWitness(emitted: seq<Ref>, t: seq<Ref>) returns (w: Ref)
    requires Distinct(emitted) && Distinct(t) && |emitted| < |t|
    ensures w in t && w !in emitted
  {
    if forall k | k in t :: k in emitted {
      DistinctCard(t);
      DistinctCard(emitted);
      assert Elems(t) <= Elems(emitted);
      SubsetCard(Elems(t), Elems(emitted));
      assert false;
    }
    w :| w in t && w !in emitted;
  }

  /** A list without repeats drawn from a finite set is no longer than it. */
  lemma DistinctBound(s: seq<Ref>, u: set<Ref>)
    requires Distinct(s) && forall k | k in s :: k in u
    ensures |s| <= |u|
  {
    DistinctCard(s);
    SubsetCard(Elems(s), u);
  }

  /** Two lists without repeats, one inside the other and at least as long,
      hold the same elements. */
  lemma SameElements(a: seq<Ref>, b: seq<Ref>)
    requires Distinct(a) && Distinct(b) && |a| >= |b|
    requires forall k | k in a :: k in b
    ensures forall k :: k in a <==> k in b
    ensures |a| == |b|
  {
    DistinctCard(a);
    DistinctCard(b);
    SubsetCard(Elems(a), Elems(b));
    if exists k :: k in b && k !in a {
      var k :| k in b && k !in a;
      SubsetCard(Elems(a), Elems(b) - {k});
      assert false;
    }
  }

  lemma {:induction false} DistinctCard<T>(s: seq<T>)
    requires Distinct(s)
    ensures |Elems(s)| == |s|
    decreases |s|
  {
    if |s| > 0 {
      var init := s[..|s| - 1];
      DistinctCard(init);
      assert Elems(s) == Elems(init) + {s[|s| - 1]};
      assert s[|s| - 1] !in init;
    }
  }

  lemma {:induction false} SubsetCard<T>(a: set<T>, b: set<T>)
    requires a <= b
    ensures |a| <= |b|
    decreases b
  {
    if a != {} {
      var x :| x in a;
      SubsetCard(a - {x}, b - {x});
    }
  }
}
