/**
 * The IEEE 1516-2010 attribute handle set: a hash set of attribute handles,
 * each handle wrapping the integer the RTI uses internally.
 */
module Hla1516eTypes {

  /** An attribute handle; two handles are equal when they wrap the same integer. */
  datatype AttributeHandle = AttributeHandle(value: int)

  /** The handles that wrap exactly the given integers. */
  function Wrap(attributes: set<int>): (handles: set<AttributeHandle>)
    ensures forall v :: AttributeHandle(v) in handles <==> v in attributes
  {
    set v | v in attributes :: AttributeHandle(v)
  }

  class AttributeHandleSet {
    var elements: set<AttributeHandle>

    /** The empty set. */
    constructor ()
      ensures elements == {}
      ensures forall h :: !Contains(h)
    {
      elements := {};
    }

    /** Wraps and adds each integer in turn. */
    constructor FromIntegers(attributes: set<int>)
      ensures elements == Wrap(attributes)
      ensures forall v :: Contains(AttributeHandle(v)) <==> v in attributes
    {
      elements := {};
      new;
      var rest := attributes;
      ghost var done: set<int> := {};
      while exists v :: v in rest
        invariant done + rest == attributes && done !! rest
        invariant elements == Wrap(done)
        decreases rest
      {
        var v :| v in rest;
        var _ := Add(AttributeHandle(v));
        rest := rest - {v};
        done := done + {v};
      }
      forall v | v in attributes ensures v in done {}
      forall v | v in done ensures v in attributes {}
    }

    /** Membership, by wrapped value. */
    function Contains(h: AttributeHandle): (r: bool)
      reads this
      ensures r <==> h in elements
    {
      h in elements
    }

    /** Adds a handle; reports whether it was absent, and leaves the set as it was if not. */
    method Add(h: AttributeHandle) returns (added: bool)
      modifies this
      ensures elements == old(elements) + {h}
      ensures added <==> h !in old(elements)
      ensures !added ==> elements == old(elements)
      ensures Contains(h)
      ensures forall g :: g != h ==> (Contains(g) <==> old(Contains(g)))
    {
      added := h !in elements;
      elements := elements + {h};
    }

    /** Removes a handle; reports whether it was present. */
    method Remove(h: AttributeHandle) returns (removed: bool)
      modifies this
      ensures elements == old(elements) - {h}
      ensures removed <==> h in old(elements)
      ensures !Contains(h)
      ensures forall g :: g != h ==> (Contains(g) <==> old(Contains(g)))
    {
      removed := h in elements;
      elements := elements - {h};
    }

    /** A new set with the same elements and its own backing store. */
    method Clone() returns (copy: AttributeHandleSet)
      ensures fresh(copy)
      ensures copy.elements == elements
      ensures forall g :: copy.Contains(g) <==> Contains(g)
    {
      copy := new AttributeHandleSet();
      copy.elements := elements;
    }
  }

  /**
   * Changing a clone leaves the original alone and the other way round:
   * after adding `h` to the clone and removing `g` from the original, each
   * holds its own change only.
   */
  method CloneIsIndependent(original: AttributeHandleSet, h: AttributeHandle, g: AttributeHandle)
    returns (copy: AttributeHandleSet)
    modifies original
    ensures fresh(copy)
    ensures copy.elements == old(original.elements) + {h}
    ensures original.elements == old(original.elements) - {g}
    ensures copy.Contains(h) && !original.Contains(g)
    ensures forall k :: k != h ==> (copy.Contains(k) <==> old(original.Contains(k)))
    ensures forall k :: k != g ==> (original.Contains(k) <==> old(original.Contains(k)))
  {
    copy := original.Clone();
    var _ := copy.Add(h);
    var _ := original.Remove(g);
  }
}
