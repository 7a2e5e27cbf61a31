/**
  The variable store behind environments: merging makes a new store in which the second
  argument wins, and leaves both arguments as they are.
 */
module VariableStores {

  type Values = map<string, string>

  class Variables {
    var values: Values

    constructor ()
      ensures values == map[]
    {
      values := map[];
    }

    method Set(name: string, value: string)
      modifies this
      ensures values == old(values)[name := value]
    {
      values := values[name := value];
    }

    /** Set every entry of a map, in any order. */
    method SetAll(source: Values)
      modifies this
      ensures values == old(values) + source
    {
      var rest := source.Keys;
      while rest != {}
        invariant rest <= source.Keys
        invariant values.Keys == old(values).Keys + (source.Keys - rest)
        invariant forall k | k in values ::
                    values[k] == if k in source && k !in rest then source[k] else old(values)[k]
      {
        var k :| k in rest;
        Set(k, source[k]);
        rest := rest - {k};
      }
    }

    /** A new store with the entries of both, those of the second taking precedence; the first may be missing. */
    static method Merge(first: Variables?, second: Variables) returns (merged: Variables)
      ensures fresh(merged)
      ensures merged.values == (if first == null then map[] else first.values) + second.values
    {
      merged := new Variables();
      if first != null {
        merged.SetAll(first.values);
        assert map[] + first.values == first.values;
      }
      merged.SetAll(second.values);
    }

    /** A new store with one entry more or changed. */
    method With(name: string, value: string) returns (changed: Variables)
      ensures fresh(changed) && changed.values == values[name := value]
    {
      var empty := new Variables();
      changed := Merge(empty, this);
      assert map[] + values == values;
      changed.Set(name, value);
    }
  }
}
