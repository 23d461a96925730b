/**
 * The dependency logic of the docker-build command: classifying the images of
 * a batch as internal (built `FROM` another image of the batch) or external,
 * walking an image's chain of internal ancestors, and ordering the batch so
 * that every image comes after its ancestors.
 */
module Dependencies {
  import opened Wrappers
  import opened PhpStrings
  import opened BuildFiles

  /** The key a descriptor's parent would have in the batch: `getFrom()` without its tag. */
  function ParentKey(d: Descriptor): string
  {
    StripTag(d.from)
  }

  /** An image is internal when its (tag-stripped) parent is a key of the batch, itself included. */
  predicate IsInternal(b: Batch, k: string)
    requires k in b.files
  {
    ParentKey(b.files[k]) in b.files
  }

  // ---------------------------------------------------------------------------
  // Classification: filterBuildFiles

  /** The keys of `ks`, in their order, that are external (`external`) or internal (`!external`). */
  function Classified(b: Batch, ks: seq<string>, external: bool): (r: seq<string>)
    requires forall k :: k in ks ==> k in b.files
    ensures forall k {:trigger k in r} :: k in r <==> k in ks && IsInternal(b, k) != external
    decreases |ks|
  {
    if ks == [] then []
    else
      var k := ks[|ks| - 1];
      var init := Classified(b, ks[..|ks| - 1], external);
      if IsInternal(b, k) != external then init + [k] else init
  }

  /** Classifying one more key appends it to its own class and leaves the other class alone. */
  lemma ClassifiedSnoc(b: Batch, ks: seq<string>, k: string, external: bool)
    requires forall x :: x in ks ==> x in b.files
    requires k in b.files
    ensures Classified(b, ks + [k], external)
         == Classified(b, ks, external) + (if IsInternal(b, k) != external then [k] else [])
  {
    assert (ks + [k])[..|ks|] == ks;
  }

  /** The sub-batch `filterBuildFiles(b, external)` returns. */
  function Filtered(b: Batch, external: bool): Batch
    requires Valid(b)
  {
    Batch(Classified(b, b.keys, external),
          map k | k in b.files && IsInternal(b, k) != external :: b.files[k])
  }

  /**
   * `filterBuildFiles`: one pass over the batch that files every image under
   * `$internal` or `$external`, then returns one of the two.
   */
  method FilterBuildFiles(b: Batch, externalFlag: bool) returns (r: Batch)
    requires Valid(b)
    ensures r == Filtered(b, externalFlag)
    ensures Valid(r)
    ensures forall k :: k in r.files ==> k in b.files && r.files[k] == b.files[k]
  {
    var external := Empty();
    var internal := Empty();
    for i := 0 to |b.keys|
      invariant Valid(external) && Valid(internal)
      invariant external.keys == Classified(b, b.keys[..i], true)
      invariant internal.keys == Classified(b, b.keys[..i], false)
      invariant forall k :: k in external.files ==> k in b.files && external.files[k] == b.files[k]
      invariant forall k :: k in internal.files ==> k in b.files && internal.files[k] == b.files[k]
    {
      var imageKey := b.keys[i];
      FilterStep(b, i, external, true);
      FilterStep(b, i, internal, false);
      if ParentKey(b.files[imageKey]) in b.files {
        internal := Put(internal, imageKey, b.files[imageKey]);
      } else {
        external := Put(external, imageKey, b.files[imageKey]);
      }
    }
    assert b.keys[..|b.keys|] == b.keys;
    if externalFlag {
      FilteredFromEntries(b, true, external);
      r := external;
    } else {
      FilteredFromEntries(b, false, internal);
      r := internal;
    }
    FilterValid(b, externalFlag);
  }

  /** One iteration of the classification loop extends the accumulator of the image's class. */
  lemma FilterStep(b: Batch, i: int, acc: Batch, external: bool)
    requires Valid(b) && 0 <= i < |b.keys|
    requires Valid(acc) && acc.keys == Classified(b, b.keys[..i], external)
    requires forall k :: k in acc.files ==> k in b.files && acc.files[k] == b.files[k]
    ensures var k := b.keys[i];
      var acc' := if IsInternal(b, k) != external then Put(acc, k, b.files[k]) else acc;
      && Valid(acc') && acc'.keys == Classified(b, b.keys[..i + 1], external)
      && (forall x :: x in acc'.files ==> x in b.files && acc'.files[x] == b.files[x])
  {
    var k := b.keys[i];
    TakeSnoc(b.keys, i);
    ClassifiedSnoc(b, b.keys[..i], k, external);
    assert k !in b.keys[..i];
    assert k !in acc.keys;
  }

  /** A batch listing one class in order, with the original descriptors, is that filtered batch. */
  lemma FilteredFromEntries(b: Batch, external: bool, acc: Batch)
    requires Valid(b)
    requires Valid(acc) && acc.keys == Classified(b, b.keys, external)
    requires forall k :: k in acc.files ==> k in b.files && acc.files[k] == b.files[k]
    ensures acc == Filtered(b, external)
  {
    var spec := Filtered(b, external);
    forall k
      ensures k in acc.files <==> k in spec.files
    {
      FilteredDomainAt(b, external, acc, k);
      FilteredAt(b, external, k);
    }
    forall k | k in acc.files
      ensures acc.files[k] == spec.files[k]
    {
      FilteredAt(b, external, k);
    }
    MapsEqual(acc.files, spec.files);
  }

  /** The filtered batch holds `k`, with its original descriptor, exactly when `k` is of the class. */
  lemma FilteredAt(b: Batch, external: bool, k: string)
    requires Valid(b)
    ensures var f := Filtered(b, external).files;
      && (k in f <==> k in b.files && IsInternal(b, k) != external)
      && (k in f ==> f[k] == b.files[k])
  {
  }

  /** A valid batch listing the keys of one class holds exactly that class. */
  lemma FilteredDomainAt(b: Batch, external: bool, acc: Batch, k: string)
    requires Valid(b)
    requires Valid(acc) && acc.keys == Classified(b, b.keys, external)
    ensures k in acc.files <==> k in b.files && IsInternal(b, k) != external
  {
    assert k in acc.files <==> k in acc.keys;
    assert k in b.files <==> k in b.keys;
  }

  /** The two classes partition the keys: every key lands in exactly one, counted once. */
  lemma {:induction false} ClassifiedPartition(b: Batch, ks: seq<string>)
    requires forall k :: k in ks ==> k in b.files
    ensures multiset(Classified(b, ks, true)) + multiset(Classified(b, ks, false)) == multiset(ks)
    ensures forall k :: !(k in Classified(b, ks, true) && k in Classified(b, ks, false))
    decreases |ks|
  {
    if ks != [] {
      var init, k := ks[..|ks| - 1], ks[|ks| - 1];
      ClassifiedPartition(b, init);
      SnocLast(ks);
      MultisetSnoc(init, k);
      ClassifiedSnoc(b, init, k, true);
      ClassifiedSnoc(b, init, k, false);
      var ext, inner := Classified(b, init, true), Classified(b, init, false);
      if IsInternal(b, k) {
        MultisetSnoc(inner, k);
        AppendEmpty(ext);
      } else {
        MultisetSnoc(ext, k);
        AppendEmpty(inner);
      }
    }
  }

  /** Each class keeps distinct keys distinct. */
  lemma {:induction false} ClassifiedDistinct(b: Batch, ks: seq<string>, external: bool)
    requires forall k :: k in ks ==> k in b.files
    requires Distinct(ks)
    ensures Distinct(Classified(b, ks, external))
    decreases |ks|
  {
    if ks != [] {
      var init := ks[..|ks| - 1];
      assert Distinct(init);
      ClassifiedDistinct(b, init, external);
      assert ks[|ks| - 1] !in init;
      assert ks[|ks| - 1] !in Classified(b, init, external);
    }
  }

  /** `x` occurs before `y` in `s`. */
  ghost predicate Before(s: seq<string>, x: string, y: string)
  {
    exists i, j :: 0 <= i < j < |s| && s[i] == x && s[j] == y
  }

  /** Every two entries of `r` occur in `s` in the same order. */
  ghost predicate KeepsOrder(r: seq<string>, s: seq<string>)
  {
    forall i, j :: 0 <= i < j < |r| ==> Before(s, r[i], r[j])
  }

  /** Each class keeps the input's iteration order. */
  lemma {:induction false} ClassifiedKeepsOrder(b: Batch, ks: seq<string>, external: bool)
    requires forall k :: k in ks ==> k in b.files
    ensures KeepsOrder(Classified(b, ks, external), ks)
    decreases |ks|
  {
    if ks != [] {
      var init := ks[..|ks| - 1];
      ClassifiedKeepsOrder(b, init, external);
      var r := Classified(b, ks, external);
      var r' := Classified(b, init, external);
      assert KeepsOrder(r', init);
      forall i, j | 0 <= i < j < |r|
        ensures Before(ks, r[i], r[j])
      {
        if j < |r'| {
          assert r[i] == r'[i] && r[j] == r'[j];
          assert Before(init, r'[i], r'[j]);
          var p, q :| 0 <= p < q < |init| && init[p] == r'[i] && init[q] == r'[j];
          assert ks[p] == r[i] && ks[q] == r[j];
        } else {
          assert r == r' + [ks[|ks| - 1]];
          assert r[i] == r'[i] && r'[i] in r';
          var p :| 0 <= p < |init| && init[p] == r[i];
          assert ks[p] == r[i] && ks[|ks| - 1] == r[j];
        }
      }
    }
  }

  /** Each filtered batch is a well-formed sub-batch holding the original descriptors. */
  lemma FilterValid(b: Batch, external: bool)
    requires Valid(b)
    ensures Valid(Filtered(b, external))
    ensures forall k :: k in Filtered(b, external).files ==> k in b.files && Filtered(b, external).files[k] == b.files[k]
  {
    ClassifiedDistinct(b, b.keys, external);
  }

  /**
   * `filterBuildFiles(b, true)` and `filterBuildFiles(b, false)` split the batch:
   * no key is in both, and together they hold every key exactly once.
   */
  lemma FilterPartition(b: Batch)
    requires Valid(b)
    ensures forall k :: !(k in Filtered(b, true).files && k in Filtered(b, false).files)
    ensures Filtered(b, true).files + Filtered(b, false).files == b.files
    ensures multiset(Filtered(b, true).keys) + multiset(Filtered(b, false).keys) == multiset(b.keys)
  {
    ClassifiedPartition(b, b.keys);
  }

  /** Each of the two filtered batches lists its keys in the batch's order. */
  lemma FilterKeepsOrder(b: Batch)
    requires Valid(b)
    ensures KeepsOrder(Filtered(b, true).keys, b.keys)
    ensures KeepsOrder(Filtered(b, false).keys, b.keys)
  {
    ClassifiedKeepsOrder(b, b.keys, true);
    ClassifiedKeepsOrder(b, b.keys, false);
  }

  /**
   * Classification reads `getFrom()` only through the tag strip: giving one
   * image another colon-free tag leaves both classes unchanged.
   */
  lemma RetagKeepsClassification(b: Batch, k: string, tag: string)
    requires Valid(b) && k in b.files && ':' !in tag
    ensures var d := b.files[k];
      var b' := Batch(b.keys, b.files[k := d.(from := ParentKey(d) + ":" + tag)]);
      Valid(b') && Filtered(b', true).keys == Filtered(b, true).keys
                && Filtered(b', false).keys == Filtered(b, false).keys
  {
    var d := b.files[k];
    var b' := Batch(b.keys, b.files[k := d.(from := ParentKey(d) + ":" + tag)]);
    StripTagOfTagged(ParentKey(d), tag);
    assert forall x :: x in b.files ==> (IsInternal(b', x) <==> IsInternal(b, x));
    SameClassesSameKeys(b', b, b.keys, true);
    SameClassesSameKeys(b', b, b.keys, false);
  }

  lemma {:induction false} SameClassesSameKeys(b1: Batch, b2: Batch, ks: seq<string>, external: bool)
    requires forall k :: k in ks ==> k in b1.files && k in b2.files && (IsInternal(b1, k) <==> IsInternal(b2, k))
    ensures Classified(b1, ks, external) == Classified(b2, ks, external)
    decreases |ks|
  {
    if ks != [] {
      SameClassesSameKeys(b1, b2, ks[..|ks| - 1], external);
    }
  }

  // ---------------------------------------------------------------------------
  // Ancestor walk: getDependencyTree

  /** Why no build order exists. */
  datatype DependencyError =
    | RepeatedKey(key: string)        // the ancestor walk came back to a key it had already visited
    | Unresolved(keys: seq<string>)   // no remaining internal image has its parent built

  /**
   * `getDependencyTree` with a cycle guard: follow internal parents, appending
   * each parent's key to `path`; `visited` holds the keys this walk has
   * appended, and reaching one of them again is a cycle.
   */
  function Walk(b: Batch, d: Descriptor, path: seq<string>, visited: set<string>): (r: Result<seq<string>, DependencyError>)
    ensures r.Ok? ==> path <= r.value
    ensures r.Ok? ==> forall i :: |path| <= i < |r.value| ==> r.value[i] in b.files && r.value[i] !in visited
    decreases b.files.Keys - visited
  {
    var parent := ParentKey(d);
    if parent !in b.files then Ok(path)
    else if parent in visited then Err(RepeatedKey(parent))
    else Walk(b, b.files[parent], path + [parent], visited + {parent})
  }

  /** `getDependencyTree($buildFiles, $buildFile, $path)`. */
  function DependencyTree(b: Batch, d: Descriptor, path: seq<string>): Result<seq<string>, DependencyError>
  {
    Walk(b, d, path, {})
  }

  /** The walk only ever appends to `path`: its outcome does not depend on `path`. */
  lemma {:induction false} WalkExtendsPath(b: Batch, d: Descriptor, path: seq<string>, visited: set<string>)
    ensures Walk(b, d, path, visited).Ok? <==> Walk(b, d, [], visited).Ok?
    ensures Walk(b, d, path, visited).Ok? ==> Walk(b, d, path, visited).value == path + Walk(b, d, [], visited).value
    ensures Walk(b, d, path, visited).Err? ==> Walk(b, d, path, visited) == Walk(b, d, [], visited)
    decreases b.files.Keys - visited
  {
    var parent := ParentKey(d);
    if parent in b.files && parent !in visited {
      var v' := visited + {parent};
      assert [] + [parent] == [parent];
      WalkExtendsPath(b, b.files[parent], path + [parent], v');
      WalkExtendsPath(b, b.files[parent], [parent], v');
      if Walk(b, d, path, visited).Ok? {
        assert path + [parent] + Walk(b, b.files[parent], [], v').value
            == path + ([parent] + Walk(b, b.files[parent], [], v').value);
      }
    }
  }

  /**
   * `c` is the ancestor chain of `d`: nearest parent first, each entry the
   * parent of the one before it, ending at an image whose own parent is not in
   * the batch; empty exactly when `d`'s parent is external.
   */
  ghost predicate IsParentChain(b: Batch, d: Descriptor, c: seq<string>)
  {
    && (forall i :: 0 <= i < |c| ==> c[i] in b.files)
    && (c == [] <==> ParentKey(d) !in b.files)
    && (c != [] ==> c[0] == ParentKey(d) && ParentKey(b.files[c[|c| - 1]]) !in b.files)
    && (forall i :: 0 <= i < |c| - 1 ==> c[i + 1] == ParentKey(b.files[c[i]]))
  }

  /** What a successful walk appends is the ancestor chain, with no key twice and none already visited. */
  lemma {:induction false} WalkIsParentChain(b: Batch, d: Descriptor, path: seq<string>, visited: set<string>)
    requires Walk(b, d, path, visited).Ok?
    ensures var c := Walk(b, d, path, visited).value[|path|..];
      IsParentChain(b, d, c) && Distinct(c) && (forall i :: 0 <= i < |c| ==> c[i] !in visited)
    decreases b.files.Keys - visited
  {
    var parent := ParentKey(d);
    var v := Walk(b, d, path, visited).value;
    if parent in b.files {
      var v' := visited + {parent};
      WalkIsParentChain(b, b.files[parent], path + [parent], v');
      var tail := v[|path| + 1..];
      assert v[|path|..] == [parent] + tail;
    } else {
      assert v[|path|..] == [];
    }
  }

  /** A walk that enters a set of keys closed under taking parents never leaves it, so it fails. */
  lemma {:induction false} ClosedWalkFails(b: Batch, closed: set<string>, d: Descriptor, path: seq<string>, visited: set<string>)
    requires forall k :: k in closed ==> k in b.files && ParentKey(b.files[k]) in closed
    requires ParentKey(d) in closed
    ensures Walk(b, d, path, visited).Err?
    decreases b.files.Keys - visited
  {
    var parent := ParentKey(d);
    if parent !in visited {
      ClosedWalkFails(b, closed, b.files[parent], path + [parent], visited + {parent});
    }
  }

  /** Every image whose parent is in the batch appears after (an occurrence of) that parent. */
  ghost predicate ParentsFirst(b: Batch, order: seq<string>)
  {
    forall i :: 0 <= i < |order| && order[i] in b.files && ParentKey(b.files[order[i]]) in b.files ==>
      ParentKey(b.files[order[i]]) in order[..i]
  }

  /** Every key of an image's dependency tree appears before the image. */
  ghost predicate AncestorsFirst(b: Batch, order: seq<string>)
  {
    forall i, a ::
      (&& 0 <= i < |order| && order[i] in b.files
       && DependencyTree(b, b.files[order[i]], []).Ok?
       && a in DependencyTree(b, b.files[order[i]], []).value)
      ==> a in order[..i]
  }

  lemma {:induction false} ChainEntryBefore(b: Batch, order: seq<string>, i: int, c: seq<string>, m: int)
    requires ParentsFirst(b, order)
    requires 0 <= i < |order| && order[i] in b.files
    requires IsParentChain(b, b.files[order[i]], c)
    requires 0 <= m < |c|
    ensures c[m] in order[..i]
    decreases m
  {
    if m > 0 {
      ChainEntryBefore(b, order, i, c, m - 1);
      var j :| 0 <= j < i && order[j] == c[m - 1];
      assert c[m] == ParentKey(b.files[order[j]]);
      assert c[m] in order[..j];
      assert order[..j] == order[..i][..j];
    }
  }

  /** Parents first implies ancestors first: the chain is followed one parent at a time. */
  lemma ParentsFirstGivesAncestorsFirst(b: Batch, order: seq<string>)
    requires ParentsFirst(b, order)
    ensures AncestorsFirst(b, order)
  {
    forall i, a | 0 <= i < |order| && order[i] in b.files && DependencyTree(b, b.files[order[i]], []).Ok? &&
      a in DependencyTree(b, b.files[order[i]], []).value
      ensures a in order[..i]
    {
      var c := DependencyTree(b, b.files[order[i]], []).value;
      WalkIsParentChain(b, b.files[order[i]], [], {});
      assert c[0..] == c;
      var m :| 0 <= m < |c| && c[m] == a;
      ChainEntryBefore(b, order, i, c, m);
    }
  }

  lemma {:induction false} OrderedWalkSucceeds(b: Batch, order: seq<string>, d: Descriptor, path: seq<string>,
                                               visited: set<string>, bound: int)
    requires Distinct(order) && ParentsFirst(b, order) && 0 <= bound <= |order|
    requires ParentKey(d) in b.files ==> ParentKey(d) in order[..bound]
    requires forall v :: v in visited ==> v !in order[..bound]
    ensures Walk(b, d, path, visited).Ok?
    decreases bound
  {
    var parent := ParentKey(d);
    if parent in b.files {
      var j :| 0 <= j < bound && order[j] == parent;
      assert order[..j] == order[..bound][..j];
      assert parent !in order[..j];
      OrderedWalkSucceeds(b, order, b.files[parent], path + [parent], visited + {parent}, j);
    }
  }

  /** An order listing every key once with parents first proves every dependency tree finite. */
  lemma OrderedMeansAcyclic(b: Batch, order: seq<string>)
    requires Distinct(order) && ParentsFirst(b, order)
    requires forall k :: k in b.files ==> k in order
    ensures forall k :: k in b.files ==> DependencyTree(b, b.files[k], []).Ok?
  {
    forall k | k in b.files
      ensures DependencyTree(b, b.files[k], []).Ok?
    {
      assert order[..|order|] == order;
      OrderedWalkSucceeds(b, order, b.files[k], [], {}, |order|);
    }
  }

  // ---------------------------------------------------------------------------
  // Ordering: sortBuildFiles

  /** The keys of `ks` whose parent is not among `pending`: those that can be built now. */
  function Ready(b: Batch, pending: seq<string>, ks: seq<string>): (r: seq<string>)
    requires forall k :: k in ks ==> k in b.files
    ensures forall k {:trigger k in r} :: k in r <==> k in ks && ParentKey(b.files[k]) !in pending
  {
    if ks == [] then []
    else (if ParentKey(b.files[ks[0]]) !in pending then [ks[0]] else []) + Ready(b, pending, ks[1..])
  }

  /** The tie-break: the least key in lexicographic order. */
  function MinKey(s: seq<string>): (m: string)
    requires s != []
    ensures m in s
  {
    if |s| == 1 then s[0]
    else
      var rest := MinKey(s[1..]);
      if LexLess(s[0], rest) then s[0] else rest
  }

  lemma {:induction false} MinKeyIsLeast(s: seq<string>)
    requires s != []
    ensures forall x :: x in s ==> x == MinKey(s) || LexLess(MinKey(s), x)
  {
    if |s| > 1 {
      MinKeyIsLeast(s[1..]);
      var rest := MinKey(s[1..]);
      LexTotal(s[0], rest);
      forall x | x in s
        ensures x == MinKey(s) || LexLess(MinKey(s), x)
      {
        if x != s[0] {
          assert x in s[1..];
          if LexLess(s[0], rest) && x != rest {
            LexTransitive(s[0], rest, x);
          }
        } else if !LexLess(s[0], rest) && s[0] != rest {
          assert LexLess(rest, s[0]);
        }
      }
    }
  }

  /** `s` with the first occurrence of `x` taken out. */
  function Remove(s: seq<string>, x: string): (r: seq<string>)
    ensures x in s ==> |r| == |s| - 1
    ensures forall y :: y in r ==> y in s
  {
    if s == [] then []
    else if s[0] == x then s[1..]
    else [s[0]] + Remove(s[1..], x)
  }

  /** Removing takes out exactly one occurrence of `x`, if there is one. */
  lemma {:induction false} RemoveMultiset(s: seq<string>, x: string)
    ensures multiset(Remove(s, x)) == multiset(s) - multiset{x}
  {
    if s != [] {
      assert s == [s[0]] + s[1..];
      if s[0] != x {
        RemoveMultiset(s[1..], x);
      }
    }
  }

  lemma {:induction false} RemoveDistinct(s: seq<string>, x: string)
    requires Distinct(s)
    ensures Distinct(Remove(s, x))
    ensures forall y :: y in Remove(s, x) <==> y in s && y != x
  {
    if s != [] {
      assert Distinct(s[1..]);
      if s[0] != x {
        RemoveDistinct(s[1..], x);
        assert s[0] !in s[1..];
      } else {
        assert x !in s[1..];
      }
    }
  }

  /**
   * The ordering of the internal images: repeatedly take the least key whose
   * parent is no longer pending; fail when every pending image still waits for
   * a pending parent.
   */
  function Schedule(b: Batch, pending: seq<string>): (r: Result<seq<string>, DependencyError>)
    requires forall k :: k in pending ==> k in b.files
    decreases |pending|
  {
    if pending == [] then Ok([])
    else
      var ready := Ready(b, pending, pending);
      if ready == [] then Err(Unresolved(pending))
      else
        var next := NextKey(b, pending);
        match Schedule(b, Remove(pending, next))
        case Ok(rest) => Ok([next] + rest)
        case Err(e) => Err(e)
  }

  /** The key a non-empty schedule starts with. */
  function NextKey(b: Batch, pending: seq<string>): (k: string)
    requires forall k :: k in pending ==> k in b.files
    requires Ready(b, pending, pending) != []
    ensures k in pending && ParentKey(b.files[k]) !in pending
  {
    MinKey(Ready(b, pending, pending))
  }

  /** A successful schedule of a non-empty list is its next key followed by the schedule of the rest. */
  lemma ScheduleStep(b: Batch, pending: seq<string>)
    requires forall k :: k in pending ==> k in b.files
    requires pending != [] && Schedule(b, pending).Ok?
    ensures Ready(b, pending, pending) != []
    ensures Schedule(b, Remove(pending, NextKey(b, pending))).Ok?
    ensures Schedule(b, pending).value == [NextKey(b, pending)] + Schedule(b, Remove(pending, NextKey(b, pending))).value
  {
  }

  /** A schedule of a non-empty list with a ready key: that key, then the schedule of the rest. */
  lemma ScheduleCons(b: Batch, pending: seq<string>, next: string, remaining: seq<string>, rest: seq<string>)
    requires forall k :: k in pending ==> k in b.files
    requires Ready(b, pending, pending) != [] && NextKey(b, pending) == next
    requires Remove(pending, next) == remaining && Schedule(b, remaining) == Ok(rest)
    ensures Schedule(b, pending) == Ok([next] + rest)
  {
  }

  /** A schedule is a permutation of the pending keys. */
  lemma {:induction false} SchedulePermutation(b: Batch, pending: seq<string>)
    requires forall k :: k in pending ==> k in b.files
    requires Schedule(b, pending).Ok?
    ensures multiset(Schedule(b, pending).value) == multiset(pending)
    decreases |pending|
  {
    if pending != [] {
      ScheduleStep(b, pending);
      var next := NextKey(b, pending);
      var rest' := Remove(pending, next);
      SchedulePermutation(b, rest');
      RemoveMultiset(pending, next);
      var rest := Schedule(b, rest').value;
      assert multiset([next] + rest) == multiset{next} + multiset(rest);
    }
  }

  /** A schedule lists only pending keys. */
  lemma {:induction false} ScheduleMembers(b: Batch, pending: seq<string>)
    requires forall k :: k in pending ==> k in b.files
    requires Schedule(b, pending).Ok?
    ensures forall k :: k in Schedule(b, pending).value ==> k in pending
    decreases |pending|
  {
    if pending != [] {
      ScheduleStep(b, pending);
      ScheduleMembers(b, Remove(pending, NextKey(b, pending)));
    }
  }

  /** A schedule of distinct keys lists each of them once. */
  lemma {:induction false} ScheduleDistinct(b: Batch, pending: seq<string>)
    requires forall k :: k in pending ==> k in b.files
    requires Schedule(b, pending).Ok? && Distinct(pending)
    ensures Distinct(Schedule(b, pending).value)
    decreases |pending|
  {
    if pending != [] {
      ScheduleStep(b, pending);
      var next := NextKey(b, pending);
      var rest' := Remove(pending, next);
      RemoveDistinct(pending, next);
      ScheduleDistinct(b, rest');
      ScheduleMembers(b, rest');
      var rest := Schedule(b, rest').value;
      assert next !in rest';
      assert next !in rest;
      ConsDistinct(next, rest);
    }
  }

  /** In a schedule every image comes after its parent whenever that parent was pending too. */
  lemma {:induction false} ScheduleParentsFirst(b: Batch, pending: seq<string>)
    requires forall k :: k in pending ==> k in b.files
    requires Schedule(b, pending).Ok?
    ensures var order := Schedule(b, pending).value;
      forall i :: 0 <= i < |order| && order[i] in b.files && ParentKey(b.files[order[i]]) in pending ==>
        ParentKey(b.files[order[i]]) in order[..i]
    decreases |pending|
  {
    if pending != [] {
      ScheduleStep(b, pending);
      var next := NextKey(b, pending);
      var rest' := Remove(pending, next);
      ScheduleParentsFirst(b, rest');
      var rest := Schedule(b, rest').value;
      var order := [next] + rest;
      forall i | 0 <= i < |order| && order[i] in b.files && ParentKey(b.files[order[i]]) in pending
        ensures ParentKey(b.files[order[i]]) in order[..i]
      {
        var p := ParentKey(b.files[order[i]]);
        if i > 0 {
          assert order[i] == rest[i - 1];
          assert order[..i] == [next] + rest[..i - 1];
          if p != next {
            RemoveMultiset(pending, next);
            assert multiset(rest')[p] == multiset(pending)[p] > 0;
            assert p in rest';
          }
        }
      }
    }
  }

  /** A schedule fails only when some pending image's dependency tree has a cycle. */
  lemma {:induction false} ScheduleFailsOnCycle(b: Batch, pending: seq<string>)
    requires forall k :: k in pending ==> k in b.files
    requires Schedule(b, pending).Err?
    ensures exists k :: k in pending && DependencyTree(b, b.files[k], []).Err?
    decreases |pending|
  {
    var ready := Ready(b, pending, pending);
    if ready == [] {
      var closed := set k | k in pending;
      forall k | k in closed
        ensures k in b.files && ParentKey(b.files[k]) in closed
      {
        assert k !in ready;
      }
      ClosedWalkFails(b, closed, b.files[pending[0]], [], {});
    } else {
      var next := MinKey(ready);
      ScheduleFailsOnCycle(b, Remove(pending, next));
    }
  }

  /**
   * The build order: the external images in the batch's order, then the
   * internal ones as scheduled. This replaces `uksort` with the pairwise
   * "ancestor sorts first" comparator.
   */
  function BuildOrder(b: Batch): Result<Batch, DependencyError>
    requires Valid(b)
  {
    var externalImages := Filtered(b, true);
    var internalImages := Filtered(b, false);
    match Schedule(b, internalImages.keys)
    case Ok(sorted) => Ok(Batch(externalImages.keys + sorted, externalImages.files + internalImages.files))
    case Err(e) => Err(e)
  }

  /** When the internal images can be scheduled, the build order is the external keys followed by that schedule. */
  lemma BuildOrderOfSchedule(b: Batch, ext: seq<string>, sorted: seq<string>)
    requires Valid(b) && Filtered(b, true).keys == ext && Schedule(b, Filtered(b, false).keys) == Ok(sorted)
    ensures BuildOrder(b).Ok? && BuildOrder(b).value.keys == ext + sorted
  {
  }

  /** A build order is the external keys followed by the schedule of the internal ones, over all descriptors. */
  lemma BuildOrderShape(b: Batch)
    requires Valid(b) && BuildOrder(b).Ok?
    ensures Schedule(b, Filtered(b, false).keys).Ok?
    ensures BuildOrder(b).value.keys == Filtered(b, true).keys + Schedule(b, Filtered(b, false).keys).value
    ensures BuildOrder(b).value.files == b.files
  {
    FilterPartition(b);
  }

  /** A build order is a well-formed batch listing every key of the batch exactly once. */
  lemma BuildOrderPermutation(b: Batch)
    requires Valid(b) && BuildOrder(b).Ok?
    ensures Valid(BuildOrder(b).value)
    ensures multiset(BuildOrder(b).value.keys) == multiset(b.keys)
  {
    BuildOrderShape(b);
    FilterValid(b, true);
    FilterValid(b, false);
    FilterPartition(b);
    var ext, inl := Filtered(b, true), Filtered(b, false);
    SchedulePermutation(b, inl.keys);
    ScheduleDistinct(b, inl.keys);
    ScheduleMembers(b, inl.keys);
    var sorted := Schedule(b, inl.keys).value;
    forall k | k in ext.keys
      ensures k !in sorted
    {
      assert k in ext.files;
    }
    AppendDistinct(ext.keys, sorted);
    MultisetMembers(ext.keys + sorted, b.keys);
  }

  /** A build order starts with the external images in batch order, and only internal images follow. */
  lemma BuildOrderExternalFirst(b: Batch)
    requires Valid(b) && BuildOrder(b).Ok?
    ensures var order := BuildOrder(b).value.keys; var ext := Filtered(b, true).keys;
      && |ext| <= |order| && order[..|ext|] == ext
      && (forall i :: |ext| <= i < |order| ==> order[i] in b.files && IsInternal(b, order[i]))
  {
    BuildOrderShape(b);
    var ext, inl := Filtered(b, true), Filtered(b, false);
    ScheduleMembers(b, inl.keys);
    var sorted := Schedule(b, inl.keys).value;
    var keys := ext.keys + sorted;
    assert keys[..|ext.keys|] == ext.keys;
    forall i | |ext.keys| <= i < |keys|
      ensures keys[i] in b.files && IsInternal(b, keys[i])
    {
      assert keys[i] == sorted[i - |ext.keys|];
      assert keys[i] in inl.keys;
    }
  }

  /** In a build order every image follows its parent and every key of its dependency tree. */
  lemma BuildOrderParentsFirst(b: Batch)
    requires Valid(b) && BuildOrder(b).Ok?
    ensures ParentsFirst(b, BuildOrder(b).value.keys)
    ensures AncestorsFirst(b, BuildOrder(b).value.keys)
  {
    BuildOrderShape(b);
    var ext, inl := Filtered(b, true), Filtered(b, false);
    ScheduleParentsFirst(b, inl.keys);
    var sorted := Schedule(b, inl.keys).value;
    forall i | 0 <= i < |sorted| && sorted[i] in b.files && ParentKey(b.files[sorted[i]]) in b.files
      ensures ParentKey(b.files[sorted[i]]) in ext.keys || ParentKey(b.files[sorted[i]]) in sorted[..i]
    {
      var p := ParentKey(b.files[sorted[i]]);
      if !IsInternal(b, p) {
        assert p in ext.keys;
      } else {
        assert p in inl.keys;
      }
    }
    forall k | k in ext.keys
      ensures k in b.files && ParentKey(b.files[k]) !in b.files
    {
    }
    AppendParentsFirst(b, ext.keys, sorted);
    ParentsFirstGivesAncestorsFirst(b, ext.keys + sorted);
  }

  /**
   * Images whose parents are outside the batch, followed by images each of
   * whose parent is among the first group or earlier in the second, are in
   * parents-first order.
   */
  lemma AppendParentsFirst(b: Batch, e: seq<string>, t: seq<string>)
    requires forall k :: k in e ==> k in b.files && ParentKey(b.files[k]) !in b.files
    requires forall i :: 0 <= i < |t| && t[i] in b.files && ParentKey(b.files[t[i]]) in b.files ==>
      ParentKey(b.files[t[i]]) in e || ParentKey(b.files[t[i]]) in t[..i]
    ensures ParentsFirst(b, e + t)
  {
    var u := e + t;
    forall i | 0 <= i < |e|
      ensures u[i] in b.files && ParentKey(b.files[u[i]]) !in b.files
    {
      assert u[i] == e[i];
    }
    forall i | |e| <= i < |u| && u[i] in b.files && ParentKey(b.files[u[i]]) in b.files
      ensures ParentKey(b.files[u[i]]) in u[..i]
    {
      var s := i - |e|;
      assert u[i] == t[s];
      assert u[..i] == e + t[..s];
    }
  }

  /** A build order exists exactly when no dependency tree of the batch has a cycle. */
  lemma BuildOrderComplete(b: Batch)
    requires Valid(b)
    ensures BuildOrder(b).Err? <==> exists k :: k in b.files && DependencyTree(b, b.files[k], []).Err?
  {
    var inl := Filtered(b, false);
    if BuildOrder(b).Err? {
      ScheduleFailsOnCycle(b, inl.keys);
    } else {
      BuildOrderPermutation(b);
      BuildOrderParentsFirst(b);
      MultisetMembers(BuildOrder(b).value.keys, b.keys);
      OrderedMeansAcyclic(b, BuildOrder(b).value.keys);
    }
  }

  /**
   * `sortBuildFiles`: classify, order the internal images, and merge the two
   * lists, external images first.
   */
  method SortBuildFiles(b: Batch) returns (r: Result<Batch, DependencyError>)
    requires Valid(b)
    ensures r == BuildOrder(b)
    ensures r.Err? <==> exists k :: k in b.files && DependencyTree(b, b.files[k], []).Err?
    ensures r.Ok? ==> Valid(r.value) && r.value.files == b.files && multiset(r.value.keys) == multiset(b.keys)
    ensures r.Ok? ==> r.value.keys[..|Filtered(b, true).keys|] == Filtered(b, true).keys
    ensures r.Ok? ==> ParentsFirst(b, r.value.keys) && AncestorsFirst(b, r.value.keys)
  {
    var externalImages := FilterBuildFiles(b, true);
    var internalImages := FilterBuildFiles(b, false);
    var sorted := Schedule(b, internalImages.keys);
    if sorted.Ok? {
      r := Ok(Batch(externalImages.keys + sorted.value, externalImages.files + internalImages.files));
    } else {
      r := Err(sorted.error);
    }
    assert r == BuildOrder(b);
    BuildOrderComplete(b);
    if r.Ok? {
      BuildOrderShape(b);
      BuildOrderPermutation(b);
      BuildOrderExternalFirst(b);
      BuildOrderParentsFirst(b);
    }
  }
}
