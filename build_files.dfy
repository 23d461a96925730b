/**
 * The entities the docker-build command works on: an image descriptor (the
 * object a `build.php` file returns, a `BaseImage`) and a batch of them keyed
 * by image name, which is a PHP ordered associative array.
 */
module BuildFiles {

  /** One Dockerfile instruction appended through the descriptor's builder API. */
  datatype Instruction =
    | Run(args: seq<string>)
    | Add(source: string, target: string)

  /**
   * An image descriptor: the parent reference (`getFrom()`), the asset paths
   * to copy into the build context, the project repositories to check out,
   * the directories that need a `composer install`, and the instruction list
   * that `run`/`add` extend and `toDockerFile()` renders.
   */
  datatype Descriptor = Descriptor(
    from: string,
    assets: seq<string>,
    projects: seq<string>,
    composerInstallDirs: seq<string>,
    instructions: seq<Instruction>)
  {
    /** `$build->run($args)`. */
    function RunCommand(args: seq<string>): Descriptor
    {
      this.(instructions := instructions + [Run(args)])
    }

    /** `$build->add($source, $target)`. */
    function AddFile(source: string, target: string): Descriptor
    {
      this.(instructions := instructions + [Add(source, target)])
    }
  }

  /** Concatenation regrouped; stated generically so that it is proved without the element type's axioms. */
  lemma AppendAssoc<T>(a: seq<T>, b: seq<T>, c: seq<T>)
    ensures a + b + c == a + (b + c)
  {
  }

  lemma AppendEmpty<T>(a: seq<T>)
    ensures a + [] == a && [] + a == a
  {
  }

  lemma TakeAll<T>(a: seq<T>)
    ensures a[..|a|] == a && a[0..] == a
  {
  }

  lemma SnocLast<T>(a: seq<T>)
    requires a != []
    ensures a == a[..|a| - 1] + [a[|a| - 1]]
  {
  }

  lemma TakeSnoc<T>(a: seq<T>, i: nat)
    requires i < |a|
    ensures a[..i + 1] == a[..i] + [a[i]] && a[..i + 1][..i] == a[..i]
  {
  }

  lemma MapsEqual<K, V>(m: map<K, V>, n: map<K, V>)
    requires forall k :: k in m <==> k in n
    requires forall k :: k in m ==> m[k] == n[k]
    ensures m == n
  {
  }

  lemma MemberSnoc<T>(a: seq<T>, x: T, e: T)
    ensures e in a + [x] <==> e in a || e == x
  {
  }

  lemma MultisetSnoc<T>(a: seq<T>, x: T)
    ensures multiset(a + [x]) == multiset(a) + multiset{x}
  {
  }

  predicate Distinct<T(==)>(s: seq<T>)
  {
    forall i, j :: 0 <= i < j < |s| ==> s[i] != s[j]
  }

  /** Putting a new element in front of a list without repeats gives a list without repeats. */
  lemma ConsDistinct<T>(x: T, s: seq<T>)
    requires Distinct(s) && x !in s
    ensures Distinct([x] + s)
  {
    var t := [x] + s;
    forall i, j | 0 <= i < j < |t|
      ensures t[i] != t[j]
    {
      assert t[j] == s[j - 1];
      if i > 0 {
        assert t[i] == s[i - 1];
      }
    }
  }

  /** Joining two lists without repeats and without a common element gives a list without repeats. */
  lemma AppendDistinct<T>(s: seq<T>, t: seq<T>)
    requires Distinct(s) && Distinct(t)
    requires forall x :: x in s ==> x !in t
    ensures Distinct(s + t)
  {
    var u := s + t;
    forall i, j | 0 <= i < j < |u|
      ensures u[i] != u[j]
    {
      if j < |s| {
        assert u[i] == s[i] && u[j] == s[j];
      } else if i < |s| {
        assert u[i] == s[i] && s[i] in s;
        assert u[j] == t[j - |s|] && t[j - |s|] in t;
      } else {
        assert u[i] == t[i - |s|] && u[j] == t[j - |s|];
      }
    }
  }

  /** The first position of `x` in `s`. */
  function IndexOf<T(==)>(s: seq<T>, x: T): (j: nat)
    requires x in s
    ensures j < |s| && s[j] == x
    ensures x !in s[..j]
  {
    if s[0] == x then 0 else 1 + IndexOf(s[1..], x)
  }

  /** A position holding `x` with no `x` before it is the first position of `x`. */
  lemma {:induction false} IndexOfUnique<T>(s: seq<T>, x: T, k: nat)
    requires k < |s| && s[k] == x && x !in s[..k]
    ensures IndexOf(s, x) == k
    decreases k
  {
    if k > 0 {
      assert s[0] == s[..k][0];
      assert s[1..][k - 1] == x;
      assert s[1..][..k - 1] == s[1..k];
      assert forall y :: y in s[1..k] ==> y in s[..k];
      IndexOfUnique(s[1..], x, k - 1);
    }
  }

  /** Lists with the same multiset of elements have the same elements. */
  lemma MultisetMembers<T>(s: seq<T>, t: seq<T>)
    requires multiset(s) == multiset(t)
    ensures forall x :: x in s <==> x in t
  {
    forall x
      ensures x in s <==> x in t
    {
      assert x in s <==> x in multiset(s);
      assert x in t <==> x in multiset(t);
    }
  }

  /**
   * An ordered map from image key to descriptor: `keys` is the iteration order
   * of the PHP array, `files` its contents.
   */
  datatype Batch = Batch(keys: seq<string>, files: map<string, Descriptor>)

  /** Every PHP array has distinct keys, and its order lists exactly its keys. */
  predicate Valid(b: Batch)
  {
    && Distinct(b.keys)
    && (forall k :: k in b.files ==> k in b.keys)
    && (forall k :: k in b.keys ==> k in b.files)
  }

  function Empty(): (b: Batch)
    ensures Valid(b) && b.keys == []
  {
    Batch([], map[])
  }

  /**
   * `$array[$k] = $d`: a new key goes to the end, an existing key keeps its
   * position and gets the new value.
   */
  function Put(b: Batch, k: string, d: Descriptor): (r: Batch)
    requires Valid(b)
    ensures Valid(r)
    ensures r.files == b.files[k := d]
    ensures |r.keys| == if k in b.files then |b.keys| else |b.keys| + 1
    ensures r.keys[..|b.keys|] == b.keys
  {
    if k in b.files then Batch(b.keys, b.files[k := d])
    else Batch(b.keys + [k], b.files[k := d])
  }
}
