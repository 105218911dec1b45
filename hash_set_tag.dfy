/** `HashSetTag`: a keyed set of tagged values. The backing `HashSet` admits `null`
    (through `addAll` and the collection constructor) even though `add` rejects it, so an
    element is an `Option<T>`. */
module Tags {
  import opened Wrappers

  /** The elements of a collection passed to `addAll` or the constructor. */
  function Elements<T(==,!new)>(tags: seq<Option<T>>): (r: set<Option<T>>)
    ensures forall x :: x in r <==> x in tags
  {
    set x | x in tags
  }

  class HashSetTag<T(==,!new)> {
    const key: string
    var tagged: set<Option<T>>

    /** The one-argument constructor with a non-null key: nothing tagged. */
    constructor (key: string)
      ensures this.key == key
      ensures tagged == {}
    {
      this.key := key;
      tagged := {};
    }

    /** The collection constructor: the given elements, no others. */
    constructor WithTags(key: string, tags: seq<Option<T>>)
      ensures this.key == key
      ensures forall x :: IsTagged(x) <==> x in tags
    {
      this.key := key;
      tagged := Elements(tags);
    }

    /** The one-argument constructor as Java callers see it: a `null` key is rejected. */
    static method Create(key: Option<string>) returns (r: Result<HashSetTag<T>, string>)
      ensures key.None? <==> r.Failure?
      ensures r.Success? ==> fresh(r.value) && r.value.key == key.value && r.value.tagged == {}
    {
      if key.None? {
        return Failure("key is null");
      }
      var t := new HashSetTag(key.value);
      return Success(t);
    }

    /** `isTagged`: membership. */
    predicate IsTagged(item: Option<T>)
      reads this
    {
      item in tagged
    }

    /** `getValues`: the live, read-only view of the tagged set. */
    function GetValues(): (r: set<Option<T>>)
      reads this
      ensures forall x :: x in r <==> IsTagged(x)
    {
      tagged
    }

    /** `getKey`. */
    function GetKey(): (r: string)
      reads this
      ensures r == key
    {
      key
    }

    /** `add`: a `null` item throws before the set changes; otherwise the item is tagged
        afterwards and the answer says whether it was new. */
    method Add(item: Option<T>) returns (r: Result<bool, string>)
      modifies this
      ensures item.None? <==> r.Failure?
      ensures r.Failure? ==> tagged == old(tagged)
      ensures r.Success? ==> tagged == old(tagged) + {item}
      ensures r.Success? ==> IsTagged(item) && (r.value <==> !old(IsTagged(item)))
    {
      if item.None? {
        return Failure("item is null");
      }
      var added := item !in tagged;
      tagged := tagged + {item};
      return Success(added);
    }

    /** `addAll`: every element of the collection is tagged afterwards; the answer says
        whether the set changed. */
    method AddAll(tags: seq<Option<T>>) returns (changed: bool)
      modifies this
      ensures tagged == old(tagged) + Elements(tags)
      ensures changed <==> exists x :: x in tags && x !in old(tagged)
    {
      var before := tagged;
      tagged := tagged + Elements(tags);
      changed := tagged != before;
      if changed {
        var x :| x in tagged && x !in before;
        assert x in tags;
      }
    }

    /** `remove`: the item is not tagged afterwards, every other element keeps its state,
        and the answer says whether it was tagged. */
    method Remove(item: Option<T>) returns (removed: bool)
      modifies this
      ensures tagged == old(tagged) - {item}
      ensures !IsTagged(item)
      ensures removed <==> old(IsTagged(item))
      ensures forall x :: x != item ==> (IsTagged(x) <==> x in old(tagged))
    {
      removed := item in tagged;
      tagged := tagged - {item};
    }
  }
}
