/** Runtime type metadata (`VmObjectMetadataContributor`, `VmObjectMetadata`).

    Metadata objects are compared by identity in the code; here each one has
    a numeric id in a registry, and a class's parent always has a smaller id
    than the class, which is what makes the parent relation acyclic. */
module VmMetadata {
  import opened Wrappers
  import opened Text

  /** `deriveSimpleName`: the part after the last '/', or the whole name. */
  function DeriveSimpleName(name: string): (r: string)
    ensures '/' !in r
    ensures '/' !in name ==> r == name
    ensures exists k :: 0 <= k <= |name| && name == name[..k] + r && (k == 0 || name[k - 1] == '/')
  {
    var index := LastIndexOf(name, '/');
    if index == -1 then
      assert name == name[..0] + name;
      name
    else
      assert name == name[..index + 1] + name[index + 1..];
      name[index + 1..]
  }

  /** The name part shared by classes and interfaces. */
  datatype Contributor = Contributor(name: string, simpleName: string)

  /** `new VmObjectMetadataContributor(name)`. */
  function NewContributor(name: string): (c: Contributor)
    ensures c.name == name
    ensures '/' !in c.simpleName && (('/' !in name) ==> c.simpleName == name)
  {
    Contributor(name, DeriveSimpleName(name))
  }

  /** A vtable entry; the code stores arbitrary objects (code labels). */
  type VtableEntry = string

  /** `VmObjectMetadata`: a name, the parent class's id (`null` at the
      root) and the vtable. */
  datatype Metadata = Metadata(contributor: Contributor, parentClass: Option<nat>, vtable: seq<VtableEntry>)

  /** The metadata objects in creation order; an object's id is its index. */
  type Registry = seq<Metadata>

  /** Every parent exists and was created before its child. */
  predicate WellFormed(reg: Registry) {
    forall id :: 0 <= id < |reg| && reg[id].parentClass.Some? ==> reg[id].parentClass.value < id
  }

  /** `new VmObjectMetadata(name, parentClass, vtable)`: the next id, and
      the getters answer the constructor's arguments. */
  function Register(reg: Registry, name: string, parentClass: Option<nat>, vtable: seq<VtableEntry>): (r: (Registry, nat))
    requires WellFormed(reg)
    requires parentClass.Some? ==> parentClass.value < |reg|
    ensures |r.0| == |reg| + 1 && r.1 == |reg| && r.0[..|reg|] == reg && WellFormed(r.0)
    ensures r.0[r.1].parentClass == parentClass && r.0[r.1].vtable == vtable
    ensures r.0[r.1].contributor.name == name
  {
    (reg + [Metadata(NewContributor(name), parentClass, vtable)], |reg|)
  }

  /** `isEqualOrSubclassOf(x, y)`: walk x's parent chain looking for y. */
  function IsEqualOrSubclassOf(reg: Registry, x: nat, y: nat): bool
    requires WellFormed(reg) && x < |reg|
    decreases x
  {
    if x == y then true
    else match reg[x].parentClass
      case None => false
      case Some(parent) => IsEqualOrSubclassOf(reg, parent, y)
  }

  /** x followed by its ancestors, nearest first. */
  function Chain(reg: Registry, x: nat): (c: seq<nat>)
    requires WellFormed(reg) && x < |reg|
    ensures |c| > 0 && c[0] == x
    ensures forall i :: 0 <= i < |c| ==> c[i] <= x
    decreases x
  {
    match reg[x].parentClass
    case None => [x]
    case Some(parent) => [x] + Chain(reg, parent)
  }

  /** The check answers true exactly for x itself and its ancestors. */
  lemma {:induction false} SubclassIffOnChain(reg: Registry, x: nat, y: nat)
    requires WellFormed(reg) && x < |reg|
    ensures IsEqualOrSubclassOf(reg, x, y) <==> y in Chain(reg, x)
    decreases x
  {
    match reg[x].parentClass
    case None =>
    case Some(parent) =>
      SubclassIffOnChain(reg, parent, y);
      assert Chain(reg, x) == [x] + Chain(reg, parent);
  }

  /** Ancestry is transitive. */
  lemma {:induction false} SubclassTransitive(reg: Registry, x: nat, y: nat, z: nat)
    requires WellFormed(reg) && x < |reg| && y < |reg|
    requires IsEqualOrSubclassOf(reg, x, y) && IsEqualOrSubclassOf(reg, y, z)
    ensures IsEqualOrSubclassOf(reg, x, z)
    decreases x
  {
    if x != y {
      SubclassTransitive(reg, reg[x].parentClass.value, y, z);
    }
  }

  /** Ancestry never loops back: a class and a proper ancestor are never
      each other's subclass. */
  lemma {:induction false} SubclassAntisymmetric(reg: Registry, x: nat, y: nat)
    requires WellFormed(reg) && x < |reg| && y < |reg|
    requires IsEqualOrSubclassOf(reg, x, y) && IsEqualOrSubclassOf(reg, y, x)
    ensures x == y
  {
    SubclassIffOnChain(reg, x, y);
    SubclassIffOnChain(reg, y, x);
  }

  /** A root answers true only for itself. */
  lemma RootHasNoProperAncestor(reg: Registry, x: nat, y: nat)
    requires WellFormed(reg) && x < |reg| && reg[x].parentClass.None? && x != y
    ensures !IsEqualOrSubclassOf(reg, x, y)
  {
  }

  /** `objectIsInstanceOf`: a stub that answers false for every object. */
  function ObjectIsInstanceOf<T>(o: T, metadata: Metadata): (r: bool)
    ensures !r
  {
    false
  }

  /** `castReference`: a stub that answers `null` for every object. */
  function CastReference<T>(o: T, metadata: Metadata): (r: Option<T>)
    ensures r.None?
  {
    None
  }
}
