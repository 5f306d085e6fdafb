/**
 * The landing screen's `reduce` that files every catalog project under
 * `acc[category][status]`, creating each key just before its first push.
 * JavaScript objects keep string keys in insertion order, so a `Dict` is a
 * key sequence in insertion order plus the map from keys to values.
 */
module Grouping {
  import opened Catalog
  import opened Sequences

  /** A plain JavaScript object used as a dictionary with string keys. */
  datatype Dict<V> = Dict(keys: seq<string>, at: map<string, V>)
  {
    /** Every key is listed once, and exactly the listed keys have values. */
    ghost predicate Valid()
    {
      Distinct(keys) && forall k :: k in at <==> k in keys
    }

    /** `obj[k] = v`: replace the value of a present key, or add `k` last. */
    function Put(k: string, v: V): (r: Dict<V>)
      ensures r.at == at[k := v]
      ensures Valid() ==> r.Valid() && r.keys == if k in keys then keys else keys + [k]
    {
      if k in at then Dict(keys, at[k := v]) else Dict(keys + [k], at[k := v])
    }
  }

  type Buckets = Dict<seq<Project>>
  type Categorized = Dict<Buckets>

  function EmptyBuckets(): Buckets
  {
    Dict([], map[])
  }

  /** `if (!d[s]) d[s] = []; d[s].push(p);` */
  function PushInto(d: Buckets, s: string, p: Project): (r: Buckets)
    ensures s in r.at && r.at[s] == (if s in d.at then d.at[s] else []) + [p]
    ensures forall t :: t in d.at && t != s ==> t in r.at && r.at[t] == d.at[t]
    ensures d.Valid() ==> r.Valid()
  {
    var d' := if s in d.at then d else d.Put(s, []);
    d'.Put(s, d'.at[s] + [p])
  }

  /** The category of each project, in catalog order. */
  function Categories(xs: seq<Project>): seq<string>
  {
    seq(|xs|, i requires 0 <= i < |xs| => xs[i].category)
  }

  /** The status of each project of category `c`, in catalog order. */
  function StatusesIn(xs: seq<Project>, c: string): seq<string>
  {
    var ys := Keep(xs, (p: Project) => p.category == c);
    seq(|ys|, i requires 0 <= i < |ys| => ys[i].status)
  }

  /** The projects of category `c` and status `s`, in catalog order. */
  function Bucket(xs: seq<Project>, c: string, s: string): seq<Project>
  {
    Keep(xs, (p: Project) => p.category == c && p.status == s)
  }

  /** The statuses of category `c`, each with its bucket. */
  function StatusesOf(xs: seq<Project>, c: string): Buckets
  {
    Dict(FirstSeen(StatusesIn(xs, c)), map s | s in StatusesIn(xs, c) :: Bucket(xs, c, s))
  }

  /**
   * The grouping described without the fold: categories and, per category,
   * statuses in first-seen order, each leaf holding its matching projects.
   */
  function Grouped(xs: seq<Project>): (g: Categorized)
    ensures g.Valid()
    ensures forall c :: c in g.at ==> g.at[c].Valid()
  {
    Dict(FirstSeen(Categories(xs)), map c | c in Categories(xs) :: StatusesOf(xs, c))
  }

  /** The sum of `size` over the values of the listed keys. */
  function SumOver<V>(keys: seq<string>, at: map<string, V>, size: V -> nat): nat
  {
    if keys == [] then 0
    else
      var k := keys[|keys| - 1];
      SumOver(keys[..|keys| - 1], at, size) + (if k in at then size(at[k]) else 0)
  }

  function BucketLength(b: seq<Project>): nat
  {
    |b|
  }

  /** The number of projects held in the buckets of one category. */
  function BucketsTotal(d: Buckets): nat
  {
    SumOver(d.keys, d.at, BucketLength)
  }

  /** The number of projects held in all buckets. */
  function Total(g: Categorized): nat
  {
    SumOver(g.keys, g.at, BucketsTotal)
  }

  /** One step of the reduce: `p` is pushed under its category and status, each opened if missing. */
  function File(acc: Categorized, p: Project): (r: Categorized)
    ensures p.category in r.at && p.status in r.at[p.category].at
    ensures var b := r.at[p.category].at[p.status]; b != [] && b[|b| - 1] == p
    ensures acc.Valid() ==> r.Valid()
  {
    var ready := if p.category in acc.at then acc else acc.Put(p.category, EmptyBuckets());
    ready.Put(p.category, PushInto(ready.at[p.category], p.status, p))
  }

  /** The reducer callback: opens the category and the status when missing, then pushes. */
  method Reduce(acc: Categorized, project: Project) returns (next: Categorized)
    ensures next == File(acc, project)
  {
    var category, status := project.category, project.status;
    next := acc;
    if category !in next.at {
      next := next.Put(category, EmptyBuckets());
    }
    var statuses := next.at[category];
    if status !in statuses.at {
      statuses := statuses.Put(status, []);
    }
    statuses := statuses.Put(status, statuses.at[status] + [project]);
    next := next.Put(category, statuses);
  }

  /** The reduce as a left fold of `File` from the empty object. */
  function Fold(xs: seq<Project>): (g: Categorized)
    ensures g.Valid()
  {
    if xs == [] then Dict([], map[]) else File(Fold(xs[..|xs| - 1]), xs[|xs| - 1])
  }

  /** The fold computes the grouping described without it. */
  lemma {:induction false} FoldIsGrouped(xs: seq<Project>)
    ensures Fold(xs) == Grouped(xs)
  {
    if xs == [] {
      assert Categories(xs) == [];
    } else {
      var init, p := xs[..|xs| - 1], xs[|xs| - 1];
      assert xs == init + [p];
      FoldIsGrouped(init);
      GroupedSnoc(init, p);
    }
  }

  /** `projectData.reduce(..., {})`: the catalog grouped by category, then by status. */
  method Categorize(catalog: seq<Project>) returns (acc: Categorized)
    ensures acc == Grouped(catalog)
  {
    acc := Dict([], map[]);
    var i := 0;
    while i < |catalog|
      invariant 0 <= i <= |catalog|
      invariant acc == Fold(catalog[..i])
    {
      assert Fold(catalog[..i + 1]) == File(acc, catalog[i]) by {
        assert catalog[..i + 1][..i] == catalog[..i];
      }
      acc := Reduce(acc, catalog[i]);
      i := i + 1;
    }
    assert catalog[..i] == catalog;
    FoldIsGrouped(catalog);
  }

  // ---------------------------------------------------------------------------
  // What the grouping guarantees.

  /** Categories, and the statuses within each category, appear in first-seen order. */
  lemma GroupedKeyOrder(xs: seq<Project>)
    ensures var g := Grouped(xs);
      forall i, j :: 0 <= i < j < |g.keys| ==>
        FirstIndex(Categories(xs), g.keys[i]) < FirstIndex(Categories(xs), g.keys[j])
    ensures var g := Grouped(xs);
      forall c, i, j :: c in g.at && 0 <= i < j < |g.at[c].keys| ==>
        FirstIndex(StatusesIn(xs, c), g.at[c].keys[i]) < FirstIndex(StatusesIn(xs, c), g.at[c].keys[j])
  {
    FirstSeenOrder(Categories(xs));
    forall c | c in Categories(xs) {
      FirstSeenOrder(StatusesIn(xs, c));
    }
  }

  /**
   * No bucket is empty, each holds only projects of its category and status,
   * and each keeps their catalog order.
   */
  lemma GroupedBucketsNonEmpty(xs: seq<Project>, c: string, s: string)
    requires c in Grouped(xs).at && s in Grouped(xs).at[c].at
    ensures Grouped(xs).at[c].at[s] != []
    ensures forall q :: q in Grouped(xs).at[c].at[s] ==> q in xs && q.category == c && q.status == s
    ensures IsSubsequence(Grouped(xs).at[c].at[s], xs)
  {
    var ys := Keep(xs, (q: Project) => q.category == c);
    var j :| 0 <= j < |ys| && ys[j].status == s;
    assert ys[j] in ys;
    KeepComplete(xs, (q: Project) => q.category == c && q.status == s, ys[j]);
    KeepIsSubsequence(xs, (q: Project) => q.category == c && q.status == s);
  }

  /** Every project is filed under its own category and status, as often as the catalog lists it. */
  lemma GroupedPlacesEveryProject(xs: seq<Project>, p: Project)
    requires p in xs
    ensures p.category in Grouped(xs).at
    ensures p.status in Grouped(xs).at[p.category].at
    ensures multiset(Grouped(xs).at[p.category].at[p.status])[p] == multiset(xs)[p]
  {
    var j :| 0 <= j < |xs| && xs[j] == p;
    assert Categories(xs)[j] == p.category;
    var f := (q: Project) => q.category == p.category;
    KeepComplete(xs, f, p);
    var ys := Keep(xs, f);
    var k :| 0 <= k < |ys| && ys[k] == p;
    assert StatusesIn(xs, p.category)[k] == p.status;
    KeepMultiplicity(xs, (q: Project) => q.category == p.category && q.status == p.status, p);
  }

  lemma {:induction false} SumOverFrame<V>(keys: seq<string>, at: map<string, V>, k: string, v: V, size: V -> nat)
    requires k !in keys
    ensures SumOver(keys, at[k := v], size) == SumOver(keys, at, size)
  {
    if keys != [] {
      SumOverFrame(keys[..|keys| - 1], at, k, v, size);
    }
  }

  lemma {:induction false} SumOverUpdate<V>(keys: seq<string>, at: map<string, V>, k: string, v: V, size: V -> nat)
    requires Distinct(keys) && k in keys && k in at
    ensures SumOver(keys, at[k := v], size) + size(at[k]) == SumOver(keys, at, size) + size(v)
  {
    var init, last := keys[..|keys| - 1], keys[|keys| - 1];
    if last == k {
      assert k !in init;
      SumOverFrame(init, at, k, v, size);
    } else {
      assert keys == init + [last];
      SumOverUpdate(init, at, k, v, size);
    }
  }

  lemma SumOverSnoc<V>(keys: seq<string>, at: map<string, V>, k: string, size: V -> nat)
    ensures SumOver(keys + [k], at, size) == SumOver(keys, at, size) + (if k in at then size(at[k]) else 0)
  {
    assert (keys + [k])[..|keys|] == keys;
  }

  /** Appending a fresh key with its value adds that value's size. */
  lemma SumOverAppend<V>(keys: seq<string>, at: map<string, V>, k: string, v: V, size: V -> nat)
    requires k !in keys
    ensures SumOver(keys + [k], at[k := v], size) == SumOver(keys, at, size) + size(v)
  {
    SumOverSnoc(keys, at[k := v], k, size);
    SumOverFrame(keys, at, k, v, size);
  }

  /** One push adds one project to a category's buckets. */
  lemma PushIntoTotal(d: Buckets, s: string, p: Project)
    requires d.Valid()
    ensures BucketsTotal(PushInto(d, s, p)) == BucketsTotal(d) + 1
  {
    if s in d.at {
      SumOverUpdate(d.keys, d.at, s, d.at[s] + [p], BucketLength);
    } else {
      assert [] + [p] == [p];
      assert d.at[s := []][s := [p]] == d.at[s := [p]];
      SumOverFrame(d.keys, d.at, s, [p], BucketLength);
    }
  }

  /** Filing one more project of a category already seen adds one to the total. */
  lemma TotalSnocSeen(xs: seq<Project>, p: Project)
    requires p.category in Categories(xs)
    ensures Total(Grouped(xs + [p])) == Total(Grouped(xs)) + 1
  {
    var g, c := Grouped(xs), p.category;
    var x := PushInto(g.at[c], p.status, p);
    assert Grouped(xs + [p]) == Dict(g.keys, g.at[c := x]) by {
      GroupedSnocSeen(xs, p);
    }
    PushIntoTotal(g.at[c], p.status, p);
    SumOverUpdate(g.keys, g.at, c, x, BucketsTotal);
  }

  /** Filing a project of a new category adds one to the total. */
  lemma TotalSnocUnseen(xs: seq<Project>, p: Project)
    requires p.category !in Categories(xs)
    ensures Total(Grouped(xs + [p])) == Total(Grouped(xs)) + 1
  {
    var g, c := Grouped(xs), p.category;
    var x := PushInto(EmptyBuckets(), p.status, p);
    GroupedSnocUnseen(xs, p);
    PushIntoTotal(EmptyBuckets(), p.status, p);
    SumOverAppend(g.keys, g.at, c, x, BucketsTotal);
  }

  /** The bucket sizes add up to the catalog length: each project is filed exactly once. */
  lemma {:induction false} GroupedTotal(xs: seq<Project>)
    ensures Total(Grouped(xs)) == |xs|
  {
    if xs != [] {
      var init, p := xs[..|xs| - 1], xs[|xs| - 1];
      assert xs == init + [p];
      GroupedTotal(init);
      if p.category in Categories(init) {
        TotalSnocSeen(init, p);
      } else {
        TotalSnocUnseen(init, p);
      }
    }
  }

  // ---------------------------------------------------------------------------
  // How one more project changes the specification.

  /** Adding a fresh key and then replacing its value appends the key once. */
  lemma PutFresh<V>(d: Dict<V>, k: string, e: V, v: V)
    requires k !in d.at
    ensures d.Put(k, e).Put(k, v) == Dict(d.keys + [k], d.at[k := v])
  {
  }

  lemma MapsEqual<V>(m: map<string, V>, n: map<string, V>)
    requires forall k :: k in m <==> k in n
    requires forall k :: k in m ==> m[k] == n[k]
    ensures m == n
  {
  }

  lemma CategoriesSnoc(xs: seq<Project>, p: Project)
    ensures Categories(xs + [p]) == Categories(xs) + [p.category]
  {
  }

  lemma StatusesInSnoc(xs: seq<Project>, p: Project, c: string)
    ensures StatusesIn(xs + [p], c) ==
      StatusesIn(xs, c) + (if p.category == c then [p.status] else [])
  {
    KeepSnoc(xs, p, (q: Project) => q.category == c);
  }

  lemma BucketSnoc(xs: seq<Project>, p: Project, c: string, s: string)
    ensures Bucket(xs + [p], c, s) ==
      Bucket(xs, c, s) + (if p.category == c && p.status == s then [p] else [])
  {
    KeepSnoc(xs, p, (q: Project) => q.category == c && q.status == s);
  }

  lemma FirstSeenSnoc(s: seq<string>, x: string)
    ensures FirstSeen(s + [x]) == if x in s then FirstSeen(s) else FirstSeen(s) + [x]
  {
    assert (s + [x])[..|s|] == s;
  }

  /** A category with no project in `xs` has no statuses. */
  lemma {:induction false} StatusesInUnseen(xs: seq<Project>, c: string)
    requires c !in Categories(xs)
    ensures StatusesIn(xs, c) == []
  {
    if xs != [] {
      var init, last := xs[..|xs| - 1], xs[|xs| - 1];
      assert xs == init + [last];
      CategoriesSnoc(init, last);
      StatusesInUnseen(init, c);
      StatusesInSnoc(init, last, c);
    }
  }

  /** A status never seen in category `c` has an empty bucket. */
  lemma {:induction false} BucketUnseen(xs: seq<Project>, c: string, s: string)
    requires s !in StatusesIn(xs, c)
    ensures Bucket(xs, c, s) == []
  {
    if xs != [] {
      var init, last := xs[..|xs| - 1], xs[|xs| - 1];
      assert xs == init + [last];
      StatusesInSnoc(init, last, c);
      BucketUnseen(init, c, s);
      BucketSnoc(init, last, c, s);
    }
  }

  /** Pushing under a status the buckets lack appends the status with a one-project bucket. */
  lemma PushIntoUnseen(d: Buckets, s: string, p: Project)
    requires s !in d.at
    ensures PushInto(d, s, p) == Dict(d.keys + [s], d.at[s := [p]])
  {
    assert [] + [p] == [p];
    assert d.at[s := []][s := [p]] == d.at[s := [p]];
  }

  /** `if (!d[s]) d[s] = []; d[s].push(p)` on an empty object. */
  lemma PushIntoEmpty(s: string, p: Project)
    ensures PushInto(EmptyBuckets(), s, p) == Dict([s], map[s := [p]])
  {
    PushIntoUnseen(EmptyBuckets(), s, p);
    assert [] + [s] == [s];
    assert map[][s := [p]] == map[s := [p]];
  }

  /** Pushing under a status the buckets hold appends to that bucket. */
  lemma PushIntoSeen(d: Buckets, s: string, p: Project)
    requires s in d.at
    ensures PushInto(d, s, p) == Dict(d.keys, d.at[s := d.at[s] + [p]])
  {
  }

  /** The statuses of `p`'s category once `p` is filed, each with its bucket. */
  function StatusesAfter(xs: seq<Project>, p: Project): map<string, seq<Project>>
  {
    StatusesOf(xs, p.category).at[p.status := Bucket(xs, p.category, p.status) + [p]]
  }

  /**
   * Filing `p` adds at most its own status to the statuses of its category,
   * appends `p` to the bucket of that status and leaves the other buckets alone.
   */
  lemma StatusesOfSnocBuckets(xs: seq<Project>, p: Project)
    ensures forall t :: t in StatusesOf(xs + [p], p.category).at <==> t in StatusesAfter(xs, p)
    ensures forall t :: t in StatusesOf(xs + [p], p.category).at ==>
      StatusesOf(xs + [p], p.category).at[t] == StatusesAfter(xs, p)[t]
  {
    StatusesInSnoc(xs, p, p.category);
    forall t | t in StatusesOf(xs + [p], p.category).at
      ensures StatusesOf(xs + [p], p.category).at[t] == StatusesAfter(xs, p)[t]
    {
      BucketSnoc(xs, p, p.category, t);
    }
  }

  /** Within `p`'s category only the bucket of `p`'s status grows, by `p`. */
  lemma StatusesOfSnocAt(xs: seq<Project>, p: Project)
    ensures StatusesOf(xs + [p], p.category).at ==
      StatusesOf(xs, p.category).at[p.status := Bucket(xs, p.category, p.status) + [p]]
  {
    StatusesOfSnocBuckets(xs, p);
    MapsEqual(StatusesOf(xs + [p], p.category).at, StatusesAfter(xs, p));
  }

  /** In a category already seen, `p` lands in the bucket of a status already seen. */
  lemma StatusesOfSnocSeen(xs: seq<Project>, p: Project)
    requires p.status in StatusesIn(xs, p.category)
    ensures StatusesOf(xs + [p], p.category) == PushInto(StatusesOf(xs, p.category), p.status, p)
  {
    var c, s := p.category, p.status;
    var before, after := StatusesOf(xs, c), StatusesOf(xs + [p], c);
    assert after.keys == before.keys by {
      StatusesInSnoc(xs, p, c);
      FirstSeenSnoc(StatusesIn(xs, c), s);
    }
    StatusesOfSnocAt(xs, p);
    PushIntoSeen(before, s, p);
  }

  /** In a category already seen, a new status gets a bucket holding only `p`. */
  lemma StatusesOfSnocUnseen(xs: seq<Project>, p: Project)
    requires p.status !in StatusesIn(xs, p.category)
    ensures StatusesOf(xs + [p], p.category) == PushInto(StatusesOf(xs, p.category), p.status, p)
  {
    var c, s := p.category, p.status;
    var before, after := StatusesOf(xs, c), StatusesOf(xs + [p], c);
    assert after.keys == before.keys + [s] by {
      StatusesInSnoc(xs, p, c);
      FirstSeenSnoc(StatusesIn(xs, c), s);
    }
    assert after.at == before.at[s := [p]] by {
      StatusesOfSnocAt(xs, p);
      BucketUnseen(xs, c, s);
      assert [] + [p] == [p];
    }
    PushIntoUnseen(before, s, p);
  }

  /** A category the prefix has not seen yet gains exactly one bucket. */
  lemma StatusesOfSnocNew(xs: seq<Project>, p: Project)
    requires p.category !in Categories(xs)
    ensures StatusesOf(xs + [p], p.category) == PushInto(EmptyBuckets(), p.status, p)
  {
    var c := p.category;
    assert StatusesOf(xs, c) == EmptyBuckets() by {
      StatusesInUnseen(xs, c);
      MapsEqual(StatusesOf(xs, c).at, map[]);
    }
    StatusesOfSnocUnseen(xs, p);
  }

  /** Other categories are untouched by `p`. */
  lemma StatusesOfSnocOther(xs: seq<Project>, p: Project, c: string)
    requires c != p.category
    ensures StatusesOf(xs + [p], c) == StatusesOf(xs, c)
  {
    var before, after := StatusesOf(xs, c), StatusesOf(xs + [p], c);
    StatusesInSnoc(xs, p, c);
    assert StatusesIn(xs + [p], c) == StatusesIn(xs, c);
    assert after.keys == before.keys;
    assert forall t :: t in after.at <==> t in StatusesIn(xs, c);
    assert after.at.Keys == before.at.Keys;
    forall t | t in after.at
      ensures after.at[t] == before.at[t]
    {
      BucketSnoc(xs, p, c, t);
    }
    assert after.at == before.at;
  }

  /** The categories once `p` is filed, each with its buckets. */
  function CategoriesAfter(xs: seq<Project>, p: Project): map<string, Buckets>
  {
    Grouped(xs).at[p.category := StatusesOf(xs + [p], p.category)]
  }

  /** Filing `p` adds at most its own category and leaves the entries of the others alone. */
  lemma GroupedSnocOthers(xs: seq<Project>, p: Project)
    ensures forall d :: d in Grouped(xs + [p]).at <==> d in CategoriesAfter(xs, p)
    ensures forall d :: d in Grouped(xs + [p]).at ==> Grouped(xs + [p]).at[d] == CategoriesAfter(xs, p)[d]
  {
    CategoriesSnoc(xs, p);
    forall d | d in Grouped(xs + [p]).at
      ensures Grouped(xs + [p]).at[d] == CategoriesAfter(xs, p)[d]
    {
      if d != p.category {
        StatusesOfSnocOther(xs, p, d);
      }
    }
  }

  /** Only the entry of `p`'s category changes when `p` is filed. */
  lemma GroupedSnocAt(xs: seq<Project>, p: Project)
    ensures Grouped(xs + [p]).at == Grouped(xs).at[p.category := StatusesOf(xs + [p], p.category)]
  {
    GroupedSnocOthers(xs, p);
    MapsEqual(Grouped(xs + [p]).at, CategoriesAfter(xs, p));
  }

  /** A project of a category already seen is pushed under that category. */
  lemma GroupedSnocSeen(xs: seq<Project>, p: Project)
    requires p.category in Categories(xs)
    ensures Grouped(xs + [p]) ==
      Dict(Grouped(xs).keys, Grouped(xs).at[p.category := PushInto(Grouped(xs).at[p.category], p.status, p)])
  {
    var c := p.category;
    assert Grouped(xs + [p]).keys == Grouped(xs).keys by {
      CategoriesSnoc(xs, p);
      FirstSeenSnoc(Categories(xs), c);
    }
    GroupedSnocAt(xs, p);
    if p.status in StatusesIn(xs, c) {
      StatusesOfSnocSeen(xs, p);
    } else {
      StatusesOfSnocUnseen(xs, p);
    }
  }

  /** A project of a new category opens that category, listed last, with a single bucket. */
  lemma GroupedSnocUnseen(xs: seq<Project>, p: Project)
    requires p.category !in Categories(xs)
    ensures Grouped(xs + [p]) ==
      Dict(Grouped(xs).keys + [p.category], Grouped(xs).at[p.category := PushInto(EmptyBuckets(), p.status, p)])
  {
    assert Grouped(xs + [p]).keys == Grouped(xs).keys + [p.category] by {
      CategoriesSnoc(xs, p);
      FirstSeenSnoc(Categories(xs), p.category);
    }
    GroupedSnocAt(xs, p);
    StatusesOfSnocNew(xs, p);
  }

  /** One step of the reduce turns the grouping of `xs` into the grouping of `xs + [p]`. */
  lemma GroupedSnoc(xs: seq<Project>, p: Project)
    ensures Grouped(xs + [p]) == File(Grouped(xs), p)
  {
    if p.category in Categories(xs) {
      GroupedSnocSeen(xs, p);
    } else {
      GroupedSnocUnseen(xs, p);
      PutFresh(Grouped(xs), p.category, EmptyBuckets(), PushInto(EmptyBuckets(), p.status, p));
    }
  }
}
