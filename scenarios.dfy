/**
 * The two batches of the command's unit tests, with the classification,
 * dependency trees and build orders those tests expect.
 */
module Scenarios {
  import opened Wrappers
  import opened PhpStrings
  import opened BuildFiles
  import opened Dependencies

  /** A descriptor built `FROM` the given reference, with nothing else configured. */
  function Image(from: string): Descriptor
  {
    Descriptor(from, [], [], [], [])
  }

  /** image2 FROM image1, image1 FROM ubuntu. */
  function Set1(): (b: Batch)
    ensures Valid(b)
  {
    Batch(["example/image2", "example/image1"],
          map["example/image2" := Image("example/image1"), "example/image1" := Image("ubuntu")])
  }

  /**
   * The shape of the second test batch over arbitrary names: image4 and
   * image3 FROM image2, image2 FROM image1, image1 FROM `u`, image5 FROM `d`.
   */
  function Family(k1: string, k2: string, k3: string, k4: string, k5: string, u: string, d: string): Batch
  {
    Batch([k4, k2, k1, k3, k5],
          map[k4 := Image(k2), k2 := Image(k1), k1 := Image(u), k3 := Image(k2), k5 := Image(d)])
  }

  /** Seven pairwise different, untagged names. */
  predicate FamilyNames(k1: string, k2: string, k3: string, k4: string, k5: string, u: string, d: string)
  {
    && ':' !in k1 && ':' !in k2 && ':' !in k3 && ':' !in k4 && ':' !in k5 && ':' !in u && ':' !in d
    && k1 != k2 && k1 != k3 && k1 != k4 && k1 != k5 && k1 != u && k1 != d
    && k2 != k3 && k2 != k4 && k2 != k5 && k2 != u && k2 != d
    && k3 != k4 && k3 != k5 && k3 != u && k3 != d
    && k4 != k5 && k4 != u && k4 != d
    && k5 != u && k5 != d
    && u != d
  }

  /** The second test batch. */
  function Set2(): Batch
  {
    Family("example/image1", "example/image2", "example/image3", "example/image4", "example/image5", "ubuntu", "debian")
  }

  /** The parent keys of the test images: none of the references carries a tag. */
  lemma Parents()
    ensures ParentKey(Image("ubuntu")) == "ubuntu"
    ensures ParentKey(Image("debian")) == "debian"
    ensures ParentKey(Image("example/image1")) == "example/image1"
    ensures ParentKey(Image("example/image2")) == "example/image2"
  {
    assert ':' !in "ubuntu";
    assert ':' !in "debian";
    assert ':' !in "example/image1";
    assert ':' !in "example/image2";
  }

  lemma Set1Filter()
    ensures Filtered(Set1(), false).keys == ["example/image2"]
    ensures Filtered(Set1(), true).keys == ["example/image1"]
  {
    Parents();
    var b := Set1();
    var k2, k1 := "example/image2", "example/image1";
    assert IsInternal(b, k2) && !IsInternal(b, k1);
    assert b.keys == [] + [k2] + [k1];
    ClassifiedSnoc(b, [], k2, true);
    ClassifiedSnoc(b, [k2], k1, true);
    ClassifiedSnoc(b, [], k2, false);
    ClassifiedSnoc(b, [k2], k1, false);
  }

  lemma FamilyValid(k1: string, k2: string, k3: string, k4: string, k5: string, u: string, d: string)
    requires FamilyNames(k1, k2, k3, k4, k5, u, d)
    ensures Valid(Family(k1, k2, k3, k4, k5, u, d))
  {
  }

  /** The parent key of every image of the family. */
  lemma FamilyParents(k1: string, k2: string, k3: string, k4: string, k5: string, u: string, d: string)
    requires FamilyNames(k1, k2, k3, k4, k5, u, d)
    ensures var b := Family(k1, k2, k3, k4, k5, u, d);
      && ParentKey(b.files[k4]) == k2 && ParentKey(b.files[k2]) == k1 && ParentKey(b.files[k1]) == u
      && ParentKey(b.files[k3]) == k2 && ParentKey(b.files[k5]) == d
      && u !in b.files && d !in b.files
  {
  }

  lemma FamilyFirstReady(k1: string, k2: string, k3: string, k4: string, k5: string, u: string, d: string)
    requires FamilyNames(k1, k2, k3, k4, k5, u, d)
    ensures Ready(Family(k1, k2, k3, k4, k5, u, d), [k4, k2, k3], [k4, k2, k3]) == [k2]
    ensures NextKey(Family(k1, k2, k3, k4, k5, u, d), [k4, k2, k3]) == k2
  {
    var b := Family(k1, k2, k3, k4, k5, u, d);
    FamilyParents(k1, k2, k3, k4, k5, u, d);
    var p := [k4, k2, k3];
    assert p[1..] == [k2, k3] && p[1..][1..] == [k3] && [k3][1..] == [];
    assert Ready(b, p, [k3]) == [];
    assert Ready(b, p, [k2, k3]) == [k2];
  }

  lemma FamilySecondReady(k1: string, k2: string, k3: string, k4: string, k5: string, u: string, d: string)
    requires FamilyNames(k1, k2, k3, k4, k5, u, d)
    ensures Ready(Family(k1, k2, k3, k4, k5, u, d), [k4, k3], [k4, k3]) == [k4, k3]
  {
    var b := Family(k1, k2, k3, k4, k5, u, d);
    FamilyParents(k1, k2, k3, k4, k5, u, d);
    var q := [k4, k3];
    assert q[1..] == [k3] && [k3][1..] == [];
    assert k2 !in q;
    assert Ready(b, q, [k3]) == [k3];
  }

  lemma FamilyLastStep(k1: string, k2: string, k3: string, k4: string, k5: string, u: string, d: string)
    requires FamilyNames(k1, k2, k3, k4, k5, u, d)
    ensures Schedule(Family(k1, k2, k3, k4, k5, u, d), [k4]) == Ok([k4])
  {
    var b := Family(k1, k2, k3, k4, k5, u, d);
    FamilyParents(k1, k2, k3, k4, k5, u, d);
    assert Ready(b, [k4], [k4]) == [k4];
    assert Remove([k4], k4) == [];
  }

  /** With image2 built, image3 and image4 are both ready and go in name order. */
  lemma FamilyLastTwo(k1: string, k2: string, k3: string, k4: string, k5: string, u: string, d: string)
    requires FamilyNames(k1, k2, k3, k4, k5, u, d) && LexLess(k3, k4)
    ensures Schedule(Family(k1, k2, k3, k4, k5, u, d), [k4, k3]) == Ok([k3, k4])
  {
    var b := Family(k1, k2, k3, k4, k5, u, d);
    FamilySecondReady(k1, k2, k3, k4, k5, u, d);
    FamilyLastStep(k1, k2, k3, k4, k5, u, d);
    LexAsymmetric(k3, k4);
    var q := [k4, k3];
    assert q[1..] == [k3];
    assert MinKey(q) == k3;
    assert NextKey(b, q) == k3;
    assert Remove(q, k3) == [k4];
    ScheduleCons(b, q, k3, [k4], [k4]);
    Cons3(k3, k4, k4);
  }

  lemma RemoveSecond(x: string, y: string, z: string)
    requires x != y
    ensures Remove([x, y, z], y) == [x, z]
  {
    assert [x, y, z][1..] == [y, z] && [y, z][1..] == [z];
  }

  /** The schedule of the family's internal images: image2, image3, image4. */
  lemma FamilySchedule(k1: string, k2: string, k3: string, k4: string, k5: string, u: string, d: string)
    requires FamilyNames(k1, k2, k3, k4, k5, u, d) && LexLess(k3, k4)
    ensures Schedule(Family(k1, k2, k3, k4, k5, u, d), [k4, k2, k3]) == Ok([k2, k3, k4])
  {
    var b := Family(k1, k2, k3, k4, k5, u, d);
    FamilyFirstReady(k1, k2, k3, k4, k5, u, d);
    FamilyLastTwo(k1, k2, k3, k4, k5, u, d);
    var p := [k4, k2, k3];
    RemoveSecond(k4, k2, k3);
    ScheduleCons(b, p, k2, [k4, k3], [k3, k4]);
    Cons3(k2, k3, k4);
  }

  /** Which images of the family are internal: image1 and image5 are built on outside images. */
  lemma FamilyClasses(k1: string, k2: string, k3: string, k4: string, k5: string, u: string, d: string)
    requires FamilyNames(k1, k2, k3, k4, k5, u, d)
    ensures var b := Family(k1, k2, k3, k4, k5, u, d);
      && IsInternal(b, k4) && IsInternal(b, k2) && IsInternal(b, k3)
      && !IsInternal(b, k1) && !IsInternal(b, k5)
  {
    FamilyParents(k1, k2, k3, k4, k5, u, d);
  }

  /** Short lists as one more element after a shorter one; generic, so proved without string axioms. */
  lemma Snocs<T>(a: T, b: T, c: T, d: T, e: T)
    ensures [a] == [] + [a] && [a, b] == [a] + [b] && [a, b, c] == [a, b] + [c]
    ensures [a, b, c, d] == [a, b, c] + [d] && [a, b, c, d, e] == [a, b, c, d] + [e]
  {
  }

  lemma Cons3<T>(a: T, b: T, c: T)
    ensures [a] + [b, c] == [a, b, c] && [a] + [b] == [a, b]
  {
  }

  lemma Join<T>(a: T, b: T, c: T, d: T, e: T)
    ensures [a, b] + [c, d, e] == [a, b, c, d, e]
  {
  }

  /** The internal images of the family, in batch order. */
  lemma FamilyInternal(k1: string, k2: string, k3: string, k4: string, k5: string, u: string, d: string)
    requires FamilyNames(k1, k2, k3, k4, k5, u, d)
    ensures Valid(Family(k1, k2, k3, k4, k5, u, d))
    ensures Filtered(Family(k1, k2, k3, k4, k5, u, d), false).keys == [k4, k2, k3]
  {
    var b := Family(k1, k2, k3, k4, k5, u, d);
    FamilyValid(k1, k2, k3, k4, k5, u, d);
    FamilyClasses(k1, k2, k3, k4, k5, u, d);
    Snocs(k4, k2, k1, k3, k5);
    Snocs(k4, k2, k3, k3, k3);
    ClassifiedSnoc(b, [], k4, false);
    ClassifiedSnoc(b, [k4], k2, false);
    ClassifiedSnoc(b, [k4, k2], k1, false);
    AppendEmpty([k4, k2]);
    ClassifiedSnoc(b, [k4, k2, k1], k3, false);
    ClassifiedSnoc(b, [k4, k2, k1, k3], k5, false);
    AppendEmpty([k4, k2, k3]);
  }

  /** The external images of the family, in batch order. */
  lemma FamilyExternal(k1: string, k2: string, k3: string, k4: string, k5: string, u: string, d: string)
    requires FamilyNames(k1, k2, k3, k4, k5, u, d)
    ensures Valid(Family(k1, k2, k3, k4, k5, u, d))
    ensures Filtered(Family(k1, k2, k3, k4, k5, u, d), true).keys == [k1, k5]
  {
    var b := Family(k1, k2, k3, k4, k5, u, d);
    FamilyValid(k1, k2, k3, k4, k5, u, d);
    FamilyClasses(k1, k2, k3, k4, k5, u, d);
    Snocs(k4, k2, k1, k3, k5);
    Snocs(k1, k5, k5, k5, k5);
    var none: seq<string> := [];
    ClassifiedSnoc(b, [], k4, true);
    AppendEmpty(none);
    ClassifiedSnoc(b, [k4], k2, true);
    ClassifiedSnoc(b, [k4, k2], k1, true);
    ClassifiedSnoc(b, [k4, k2, k1], k3, true);
    AppendEmpty([k1]);
    ClassifiedSnoc(b, [k4, k2, k1, k3], k5, true);
  }

  /** The two classes of the family, each in batch order. */
  lemma FamilyFilter(k1: string, k2: string, k3: string, k4: string, k5: string, u: string, d: string)
    requires FamilyNames(k1, k2, k3, k4, k5, u, d)
    ensures Valid(Family(k1, k2, k3, k4, k5, u, d))
    ensures Filtered(Family(k1, k2, k3, k4, k5, u, d), false).keys == [k4, k2, k3]
    ensures Filtered(Family(k1, k2, k3, k4, k5, u, d), true).keys == [k1, k5]
  {
    FamilyValid(k1, k2, k3, k4, k5, u, d);
    FamilyInternal(k1, k2, k3, k4, k5, u, d);
    FamilyExternal(k1, k2, k3, k4, k5, u, d);
  }

  /** The dependency trees of the family, nearest ancestor first. */
  lemma FamilyTrees(k1: string, k2: string, k3: string, k4: string, k5: string, u: string, d: string)
    requires FamilyNames(k1, k2, k3, k4, k5, u, d)
    ensures var b := Family(k1, k2, k3, k4, k5, u, d);
      && DependencyTree(b, b.files[k4], []) == Ok([k2, k1])
      && DependencyTree(b, b.files[k3], []) == Ok([k2, k1])
      && DependencyTree(b, b.files[k2], []) == Ok([k1])
      && DependencyTree(b, b.files[k1], []) == Ok([])
      && DependencyTree(b, b.files[k5], []) == Ok([])
  {
    var b := Family(k1, k2, k3, k4, k5, u, d);
    FamilyParents(k1, k2, k3, k4, k5, u, d);
    assert [k2] + [k1] == [k2, k1] && {k2} + {k1} == {k2, k1};
    assert [] + [k1] == [k1] && {} + {k1} == {k1};
    assert [] + [k2] == [k2] && {} + {k2} == {k2};
    assert Walk(b, b.files[k1], [k2, k1], {k2, k1}) == Ok([k2, k1]);
    assert Walk(b, b.files[k2], [k2], {k2}) == Ok([k2, k1]);
    assert Walk(b, b.files[k1], [k1], {k1}) == Ok([k1]);
  }

  lemma FamilyInternalSchedule(k1: string, k2: string, k3: string, k4: string, k5: string, u: string, d: string)
    requires FamilyNames(k1, k2, k3, k4, k5, u, d) && LexLess(k3, k4)
    ensures Valid(Family(k1, k2, k3, k4, k5, u, d))
    ensures Schedule(Family(k1, k2, k3, k4, k5, u, d), Filtered(Family(k1, k2, k3, k4, k5, u, d), false).keys)
         == Ok([k2, k3, k4])
  {
    FamilyFilter(k1, k2, k3, k4, k5, u, d);
    FamilySchedule(k1, k2, k3, k4, k5, u, d);
  }

  /** The build order of the family: the external images, then image2, image3, image4. */
  lemma FamilyOrder(k1: string, k2: string, k3: string, k4: string, k5: string, u: string, d: string)
    requires FamilyNames(k1, k2, k3, k4, k5, u, d) && LexLess(k3, k4)
    ensures Valid(Family(k1, k2, k3, k4, k5, u, d))
    ensures BuildOrder(Family(k1, k2, k3, k4, k5, u, d)).Ok?
    ensures BuildOrder(Family(k1, k2, k3, k4, k5, u, d)).value.keys == [k1, k5, k2, k3, k4]
  {
    FamilyInternalSchedule(k1, k2, k3, k4, k5, u, d);
    FamilyExternal(k1, k2, k3, k4, k5, u, d);
    BuildOrderOfSchedule(Family(k1, k2, k3, k4, k5, u, d), [k1, k5], [k2, k3, k4]);
    Join(k1, k5, k2, k3, k4);
  }

  /** The names of the second test batch meet the family's conditions. */
  lemma Set2Names()
    ensures FamilyNames("example/image1", "example/image2", "example/image3", "example/image4", "example/image5", "ubuntu", "debian")
    ensures LexLess("example/image3", "example/image4")
  {
    Set2Untagged();
    Set2Distinct();
    Set2Lex();
  }

  lemma Set2Untagged()
    ensures ':' !in "example/image1" && ':' !in "example/image2" && ':' !in "example/image3"
    ensures ':' !in "example/image4" && ':' !in "example/image5" && ':' !in "ubuntu" && ':' !in "debian"
  {
  }

  lemma Set2Distinct()
    ensures var names := ["example/image1", "example/image2", "example/image3", "example/image4", "example/image5", "ubuntu", "debian"];
      forall i, j :: 0 <= i < j < 7 ==> names[i] != names[j]
  {
    var names := ["example/image1", "example/image2", "example/image3", "example/image4", "example/image5", "ubuntu", "debian"];
    forall i, j | 0 <= i < j < 7
      ensures names[i] != names[j]
    {
      if j < 5 {
        assert names[i][13] != names[j][13];
      } else if i < 5 {
        assert |names[i]| != |names[j]|;
      } else {
        assert names[i][0] != names[j][0];
      }
    }
  }

  lemma Set2Lex()
    ensures LexLess("example/image3", "example/image4")
  {
    var a, b := "example/image3", "example/image4";
    assert a[..13] == b[..13];
    LexLessAfterPrefix(a, b, 13);
  }

  /** The second test batch: internal image4, image2, image3 and external image1, image5. */
  lemma Set2Filter()
    ensures Valid(Set2())
    ensures Filtered(Set2(), false).keys == ["example/image4", "example/image2", "example/image3"]
    ensures Filtered(Set2(), true).keys == ["example/image1", "example/image5"]
  {
    Set2Names();
    FamilyValid("example/image1", "example/image2", "example/image3", "example/image4", "example/image5", "ubuntu", "debian");
    FamilyFilter("example/image1", "example/image2", "example/image3", "example/image4", "example/image5", "ubuntu", "debian");
  }

  /** The dependency trees the second test batch expects. */
  lemma Set2Trees()
    ensures DependencyTree(Set2(), Set2().files["example/image4"], []) == Ok(["example/image2", "example/image1"])
    ensures DependencyTree(Set2(), Set2().files["example/image3"], []) == Ok(["example/image2", "example/image1"])
    ensures DependencyTree(Set2(), Set2().files["example/image2"], []) == Ok(["example/image1"])
    ensures DependencyTree(Set2(), Set2().files["example/image1"], []) == Ok([])
    ensures DependencyTree(Set2(), Set2().files["example/image5"], []) == Ok([])
  {
    Set2Names();
    FamilyTrees("example/image1", "example/image2", "example/image3", "example/image4", "example/image5", "ubuntu", "debian");
  }

  /** The second test batch builds image1, image5, image2, image3, image4, in that order. */
  lemma Set2Order()
    ensures Valid(Set2()) && BuildOrder(Set2()).Ok?
    ensures BuildOrder(Set2()).value.keys
         == ["example/image1", "example/image5", "example/image2", "example/image3", "example/image4"]
  {
    Set2Names();
    FamilyOrder("example/image1", "example/image2", "example/image3", "example/image4", "example/image5", "ubuntu", "debian");
  }

  /** The first test batch builds image1, then image2. */
  lemma Set1Order()
    ensures BuildOrder(Set1()).Ok? && BuildOrder(Set1()).value.keys == ["example/image1", "example/image2"]
  {
    Set1Filter();
    Parents();
    var b := Set1();
    assert Ready(b, ["example/image2"], ["example/image2"]) == ["example/image2"];
  }
}
