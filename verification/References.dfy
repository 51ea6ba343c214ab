/** What Go structs share by reference. */
module References {

  /**
   The elements of a slice, the entries of a map, the target of a pointer. A nil
   one is a Ref of its own that holds nothing.
   */
  class Ref<T> {
    var target: T

    constructor (target: T)
      ensures this.target == target
    {
      this.target := target;
    }

    method Clone() returns (c: Ref<T>)
      ensures fresh(c) && c.target == target
    {
      c := new Ref(target);
    }
  }
}
