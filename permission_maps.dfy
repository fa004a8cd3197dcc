/**
 * Permission mappings (permission type -> set of permission values) and the
 * generic merge that SSMultiTenancyUserDetailService.mergePermMap performs on
 * them, once for permission codes and once for permission objects.
 */
module PermissionMaps {

  type PermMap<T> = map<string, set<T>>

  /** The values recorded under `key`, or nothing when the key is absent. */
  function ValuesAt<T>(m: PermMap<T>, key: string): set<T>
  {
    if key in m then m[key] else {}
  }

  /**
   * What mergePermMap leaves in the target: every source entry is either
   * added to the value set already under its key or inserted under a new key.
   */
  function Merge<T>(target: PermMap<T>, source: PermMap<T>): PermMap<T>
  {
    target + map key | key in source :: if key in target then target[key] + source[key] else source[key]
  }

  /**
   * The keys of a merge are the keys of either side, and the values under a
   * key are the union of what either side records there.
   */
  lemma MergeAt<T>(target: PermMap<T>, source: PermMap<T>, key: string)
    ensures key in Merge(target, source) <==> key in target || key in source
    ensures ValuesAt(Merge(target, source), key) == ValuesAt(target, key) + ValuesAt(source, key)
  {
  }

  /** No key is removed, and a key only the target has keeps its value set. */
  lemma MergeKeepsTarget<T>(target: PermMap<T>, source: PermMap<T>)
    ensures target.Keys <= Merge(target, source).Keys
    ensures forall key :: key in target && key !in source ==> Merge(target, source)[key] == target[key]
  {
  }

  /** The entries of `m` whose keys are in `keys`. */
  function Restrict<T>(m: PermMap<T>, keys: set<string>): PermMap<T>
  {
    map key | key in m && key in keys :: m[key]
  }

  lemma MergeNone<T>(target: PermMap<T>, source: PermMap<T>)
    ensures Merge(target, Restrict(source, {})) == target
  {
    assert Restrict(source, {}) == map[];
  }

  lemma RestrictAll<T>(source: PermMap<T>, keys: set<string>)
    requires source.Keys <= keys
    ensures Restrict(source, keys) == source
  {
  }

  /** One iteration of mergePermMap's loop: the entry under `key` is merged in. */
  lemma MergeOneMore<T>(target: PermMap<T>, source: PermMap<T>, done: set<string>, key: string)
    requires key in source && key !in done
    ensures var before := Merge(target, Restrict(source, done));
      Merge(target, Restrict(source, done + {key})) == before[key := ValuesAt(before, key) + source[key]]
  {
    var before := Merge(target, Restrict(source, done));
    var after := Merge(target, Restrict(source, done + {key}));
    var expected := before[key := ValuesAt(before, key) + source[key]];
    forall k
      ensures k in after <==> k in expected
    {
      MergeAt(target, Restrict(source, done), k);
      MergeAt(target, Restrict(source, done + {key}), k);
    }
    forall k | k in after
      ensures after[k] == expected[k]
    {
      MergeAt(target, Restrict(source, done), k);
      MergeAt(target, Restrict(source, done + {key}), k);
    }
  }

  /**
   * mergePermMap: walks the source entries one at a time and updates the
   * target in place; here the target is passed in and the merged map returned.
   */
  method MergePermMap<T>(target: PermMap<T>, source: PermMap<T>) returns (merged: PermMap<T>)
    ensures merged == Merge(target, source)
  {
    merged := target;
    var pending := source.Keys;
    ghost var done: set<string> := {};
    MergeNone(target, source);
    while pending != {}
      invariant pending + done == source.Keys && pending !! done
      invariant merged == Merge(target, Restrict(source, done))
      decreases pending
    {
      var key :| key in pending;
      MergeOneMore(target, source, done, key);
      if key in merged {
        merged := merged[key := merged[key] + source[key]];
      } else {
        merged := merged[key := source[key]];
      }
      pending := pending - {key};
      done := done + {key};
    }
    RestrictAll(source, done);
  }

  /** Merging the same source a second time leaves the first merge's result. */
  lemma MergeIdempotent<T>(target: PermMap<T>, source: PermMap<T>)
    ensures Merge(Merge(target, source), source) == Merge(target, source)
  {
    var once := Merge(target, source);
    var twice := Merge(once, source);
    forall key
      ensures key in twice <==> key in once
      ensures key in twice ==> twice[key] == once[key]
    {
      MergeAt(target, source, key);
      MergeAt(once, source, key);
    }
  }

  /** The merged mapping does not depend on which side is the target. */
  lemma MergeCommutative<T>(a: PermMap<T>, b: PermMap<T>)
    ensures Merge(a, b) == Merge(b, a)
  {
    var ab, ba := Merge(a, b), Merge(b, a);
    forall key
      ensures key in ab <==> key in ba
      ensures key in ab ==> ab[key] == ba[key]
    {
      MergeAt(a, b, key);
      MergeAt(b, a, key);
    }
  }

  /** Merging is associative, so a fold over roles can be regrouped freely. */
  lemma MergeAssociative<T>(a: PermMap<T>, b: PermMap<T>, c: PermMap<T>)
    ensures Merge(Merge(a, b), c) == Merge(a, Merge(b, c))
  {
    var left, right := Merge(Merge(a, b), c), Merge(a, Merge(b, c));
    forall key
      ensures key in left <==> key in right
      ensures key in left ==> left[key] == right[key]
    {
      MergeAt(a, b, key);
      MergeAt(Merge(a, b), c, key);
      MergeAt(b, c, key);
      MergeAt(a, Merge(b, c), key);
    }
  }

  /** Left fold of Merge over a sequence of mappings, starting from the empty mapping. */
  function MergeAll<T>(ms: seq<PermMap<T>>): PermMap<T>
  {
    if |ms| == 0 then map[] else Merge(MergeAll(ms[..|ms| - 1]), ms[|ms| - 1])
  }

  /**
   * A key is in the fold exactly when some mapping has it, and a value is
   * recorded under it exactly when some mapping records it there.
   */
  lemma {:induction false} MergeAllMember<T>(ms: seq<PermMap<T>>, key: string, x: T)
    ensures key in MergeAll(ms) <==> exists i :: 0 <= i < |ms| && key in ms[i]
    ensures x in ValuesAt(MergeAll(ms), key) <==> exists i :: 0 <= i < |ms| && x in ValuesAt(ms[i], key)
  {
    if |ms| > 0 {
      var init, last := ms[..|ms| - 1], ms[|ms| - 1];
      MergeAllMember(init, key, x);
      MergeAt(MergeAll(init), last, key);
      assert forall i :: 0 <= i < |init| ==> init[i] == ms[i];
    }
  }
}
