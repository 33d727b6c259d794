/** The product repository the service calls: a map from id to entity, the
    order in which the entities are enumerated, and the counter that
    supplies the id of the next new entity. The derived paged queries
    `findByCategory` and `findByTitleContaining` are modelled as a filter
    over that enumeration followed by a page slice. */
module Repository {
  import opened Wrappers
  import opened Paging
  import opened Entities

  datatype Store = Store(rows: map<int, Product>, order: seq<int>, nextId: int)

  ghost predicate NoDuplicates(xs: seq<int>)
  {
    forall i, j :: 0 <= i < j < |xs| ==> xs[i] != xs[j]
  }

  /** The enumeration lists every stored id exactly once, every entity
      carries its own key as id, and the counter is above every id. */
  ghost predicate Valid(s: Store)
  {
    && NoDuplicates(s.order)
    && (forall i :: 0 <= i < |s.order| ==> s.order[i] in s.rows)
    && (forall k :: k in s.rows ==> k in s.order)
    && (forall k :: k in s.rows ==> s.rows[k].id == Some(k) && k < s.nextId)
  }

  /** The empty repository; generated ids start at 1. */
  const Empty: Store := Store(map[], [], 1)

  /** `findById(id)`. */
  function FindById(s: Store, id: int): (r: Option<Product>)
    ensures r.Some? <==> id in s.rows
    ensures r.Some? ==> r.value == s.rows[id] && (Valid(s) ==> r.value.id == Some(id))
  {
    if id in s.rows then Some(s.rows[id]) else None
  }

  /** `save(product)`: an entity without an id is inserted under a fresh id
      at the end of the enumeration; an entity with an id overwrites the
      stored entity with that id in place. */
  function Save(s: Store, p: Product): (res: (Store, Product))
    requires Valid(s)
    requires p.id.Some? ==> p.id.value in s.rows
    ensures Valid(res.0)
    ensures res.1.id.Some? && res.0.rows == s.rows[res.1.id.value := res.1]
    ensures p.id.None? ==> && res.1 == p.(id := Some(s.nextId))
                           && s.nextId !in s.rows
                           && res.0.order == s.order + [s.nextId]
                           && res.0.nextId == s.nextId + 1
    ensures p.id.Some? ==> res.1 == p && res.0.order == s.order && res.0.nextId == s.nextId
  {
    if p.id.None? then
      var saved := p.(id := Some(s.nextId));
      (Store(s.rows[s.nextId := saved], s.order + [s.nextId], s.nextId + 1), saved)
    else
      (s.(rows := s.rows[p.id.value := p]), p)
  }

  /** `xs` without `id`, in the same order. */
  function RemoveId(xs: seq<int>, id: int): (r: seq<int>)
    ensures forall k :: k in r <==> k in xs && k != id
    ensures NoDuplicates(xs) ==> NoDuplicates(r)
  {
    if xs == [] then []
    else if xs[0] == id then RemoveId(xs[1..], id)
    else
      var rest := RemoveId(xs[1..], id);
      assert NoDuplicates(xs) ==> xs[0] !in xs[1..];
      [xs[0]] + rest
  }

  /** Removal works piecewise, so the remaining ids keep their order. */
  lemma {:induction false} RemoveIdAppend(a: seq<int>, b: seq<int>, id: int)
    ensures RemoveId(a + b, id) == RemoveId(a, id) + RemoveId(b, id)
  {
    if a != [] {
      assert a + b != [] && (a + b)[0] == a[0];
      assert (a + b)[1..] == a[1..] + b;
      RemoveIdAppend(a[1..], b, id);
      if a[0] == id {
        assert RemoveId(a + b, id) == RemoveId(a[1..] + b, id);
        assert RemoveId(a, id) == RemoveId(a[1..], id);
      } else {
        assert RemoveId(a + b, id) == [a[0]] + RemoveId(a[1..] + b, id);
        assert RemoveId(a, id) == [a[0]] + RemoveId(a[1..], id);
        assert [a[0]] + RemoveId(a[1..], id) + RemoveId(b, id)
            == [a[0]] + (RemoveId(a[1..], id) + RemoveId(b, id));
      }
    } else {
      assert a + b == b;
    }
  }

  /** Removing an id that is absent changes nothing. */
  lemma {:induction false} RemoveAbsentId(xs: seq<int>, id: int)
    requires id !in xs
    ensures RemoveId(xs, id) == xs
  {
    if xs != [] {
      RemoveAbsentId(xs[1..], id);
    }
  }

  /** Without duplicates, `xs[i]` occurs nowhere else in `xs`. */
  lemma OnlyAt(xs: seq<int>, i: nat)
    requires NoDuplicates(xs) && i < |xs|
    ensures xs[i] !in xs[..i] && xs[i] !in xs[i + 1 ..]
  {
    var before, after := xs[..i], xs[i + 1 ..];
    forall j | 0 <= j < |before| ensures before[j] != xs[i] { }
    forall j | 0 <= j < |after| ensures after[j] != xs[i] {
      assert after[j] == xs[i + 1 + j];
    }
  }

  lemma RemoveOnly(id: int)
    ensures RemoveId([id], id) == []
  {
    assert [id][1..] == [];
  }

  /** In an enumeration without duplicates, removing the id at position
      `i` cuts exactly that position out. */
  lemma {:induction false} RemoveIdAt(xs: seq<int>, i: nat)
    requires NoDuplicates(xs) && i < |xs|
    ensures RemoveId(xs, xs[i]) == xs[..i] + xs[i + 1 ..]
  {
    var id, before, after := xs[i], xs[..i], xs[i + 1 ..];
    assert xs == before + ([id] + after);
    OnlyAt(xs, i);
    calc {
      RemoveId(xs, id);
      { RemoveIdAppend(before, [id] + after, id); }
      RemoveId(before, id) + RemoveId([id] + after, id);
      { RemoveIdAppend([id], after, id); }
      RemoveId(before, id) + (RemoveId([id], id) + RemoveId(after, id));
      { RemoveAbsentId(before, id); RemoveAbsentId(after, id); RemoveOnly(id); }
      before + ([] + after);
    }
    assert [] + after == after;
  }

  /** `delete(product)` of a stored entity: it leaves the map and the
      enumeration, which otherwise keeps its order; nothing else changes. */
  function Delete(s: Store, id: int): (r: Store)
    requires Valid(s) && id in s.rows
    ensures Valid(r)
    ensures r.rows == s.rows - {id} && r.order == RemoveId(s.order, id) && r.nextId == s.nextId
  {
    var order := RemoveId(s.order, id);
    assert forall i :: 0 <= i < |order| ==> order[i] in order;
    Store(s.rows - {id}, order, s.nextId)
  }

  /** The entities stored under `ids`, in that order. */
  function Lookup(rows: map<int, Product>, ids: seq<int>): (r: seq<Product>)
    requires forall i :: 0 <= i < |ids| ==> ids[i] in rows
    ensures |r| == |ids|
    ensures forall i :: 0 <= i < |ids| ==> r[i] == rows[ids[i]]
  {
    if ids == [] then [] else [rows[ids[0]]] + Lookup(rows, ids[1..])
  }

  /** `findAll()`: the stored entities in enumeration order. */
  function FindAll(s: Store): (r: seq<Product>)
    requires Valid(s)
    ensures |r| == |s.order|
    ensures forall i :: 0 <= i < |r| ==> r[i] == s.rows[s.order[i]]
  {
    Lookup(s.rows, s.order)
  }

  lemma {:induction false} DistinctElements(xs: seq<int>)
    requires NoDuplicates(xs)
    ensures |set k | k in xs| == |xs|
  {
    if xs != [] {
      var tail := xs[1..];
      DistinctElements(tail);
      assert (set k | k in xs) == (set k | k in tail) + {xs[0]};
      assert xs[0] !in tail;
    }
  }

  /** The enumeration lists exactly the stored ids. */
  lemma EnumeratedIds(s: Store)
    requires Valid(s)
    ensures (set k | k in s.order) == s.rows.Keys
  {
    forall k ensures k in s.order <==> k in s.rows {
      if k in s.order {
        var i :| 0 <= i < |s.order| && s.order[i] == k;
        assert s.order[i] in s.rows;
      }
    }
  }

  /** `findAll()` returns every stored entity exactly once. */
  lemma {:induction false} FindAllIsComplete(s: Store)
    requires Valid(s)
    ensures |FindAll(s)| == |s.rows|
    ensures forall k :: k in s.rows ==> s.rows[k] in FindAll(s)
    ensures forall p :: p in FindAll(s) ==> p.id.Some? && p.id.value in s.rows && s.rows[p.id.value] == p
  {
    DistinctElements(s.order);
    EnumeratedIds(s);
    assert |s.rows| == |s.rows.Keys|;
    var all := FindAll(s);
    forall k | k in s.rows ensures s.rows[k] in all {
      var i :| 0 <= i < |s.order| && s.order[i] == k;
      assert all[i] == s.rows[k];
    }
    forall p | p in all ensures p.id.Some? && p.id.value in s.rows && s.rows[p.id.value] == p {
      var i :| 0 <= i < |all| && all[i] == p;
      assert s.order[i] in s.rows;
    }
  }

  /** Saving a new entity appends it to the end of `findAll()`. */
  lemma {:induction false} FindAllAfterInsert(s: Store, p: Product)
    requires Valid(s) && p.id.None?
    ensures FindAll(Save(s, p).0) == FindAll(s) + [Save(s, p).1]
  {
    var (post, saved) := Save(s, p);
    var a, b := FindAll(post), FindAll(s) + [saved];
    assert |a| == |b|;
    forall i | 0 <= i < |a| ensures a[i] == b[i] {
      if i < |s.order| {
        assert s.order[i] in s.rows;
      }
    }
  }

  /** Deleting the entity at position `i` of the enumeration removes
      exactly that element from `findAll()`; the others keep their order. */
  lemma {:induction false} FindAllAfterDelete(s: Store, i: nat)
    requires Valid(s) && i < |s.order|
    ensures FindAll(Delete(s, s.order[i])) == FindAll(s)[..i] + FindAll(s)[i + 1 ..]
  {
    var id := s.order[i];
    RemoveIdAt(s.order, i);
    var a, b := FindAll(Delete(s, id)), FindAll(s)[..i] + FindAll(s)[i + 1 ..];
    assert |a| == |b|;
    forall j | 0 <= j < |a| ensures a[j] == b[j] {
      if j < i {
        assert Delete(s, id).order[j] == s.order[j];
      } else {
        assert Delete(s, id).order[j] == s.order[j + 1];
      }
    }
  }

  /** The elements of `ps` that `keep` accepts, in the same order. */
  function Filter(ps: seq<Product>, keep: Product -> bool): (r: seq<Product>)
    ensures |r| <= |ps|
    ensures forall p :: p in r <==> p in ps && keep(p)
  {
    if ps == [] then []
    else if keep(ps[0]) then [ps[0]] + Filter(ps[1..], keep)
    else Filter(ps[1..], keep)
  }

  /** Filtering works piecewise, so the kept elements stay in order: with
      the one-element case, this determines the filter completely. */
  lemma {:induction false} FilterAppend(a: seq<Product>, b: seq<Product>, keep: Product -> bool)
    ensures Filter(a + b, keep) == Filter(a, keep) + Filter(b, keep)
    ensures forall p :: Filter([p], keep) == if keep(p) then [p] else []
  {
    if a != [] {
      assert a + b != [] && (a + b)[0] == a[0];
      assert (a + b)[1..] == a[1..] + b;
      FilterAppend(a[1..], b, keep);
      if keep(a[0]) {
        assert [a[0]] + Filter(a[1..], keep) + Filter(b, keep)
            == [a[0]] + (Filter(a[1..], keep) + Filter(b, keep));
      }
    } else {
      assert a + b == b;
    }
  }

  /** Filtering splits around any position: the filtered sequence is what
      was kept before position `i`, then `xs[i]` if kept, then what was kept
      after it. */
  lemma {:induction false} FilterAround(xs: seq<Product>, i: nat, keep: Product -> bool)
    requires i < |xs|
    ensures Filter(xs, keep) == Filter(xs[..i], keep) + Filter([xs[i]], keep) + Filter(xs[i + 1..], keep)
  {
    var before, after := xs[..i], xs[i + 1..];
    assert xs == before + ([xs[i]] + after);
    calc {
      Filter(xs, keep);
      { FilterAppend(before, [xs[i]] + after, keep); }
      Filter(before, keep) + Filter([xs[i]] + after, keep);
      { FilterAppend([xs[i]], after, keep); }
      Filter(before, keep) + (Filter([xs[i]], keep) + Filter(after, keep));
    }
  }

  /** `sub` occurs in `text` at position `i`. */
  predicate OccursAt(text: string, sub: string, i: nat)
  {
    i + |sub| <= |text| && text[i .. i + |sub|] == sub
  }

  /** Substring containment, the matching rule assumed for
      `findByTitleContaining` (SQL `LIKE '%sub%'`, case-sensitive). */
  function Contains(text: string, sub: string): (b: bool)
    ensures b <==> exists i: nat :: OccursAt(text, sub, i)
  {
    if sub <= text then
      assert OccursAt(text, sub, 0);
      true
    else if text == [] then
      false
    else
      var rest := Contains(text[1..], sub);
      assert forall i: nat :: OccursAt(text[1..], sub, i) <==> OccursAt(text, sub, i + 1);
      assert forall i: nat :: OccursAt(text, sub, i) && i > 0 ==> OccursAt(text[1..], sub, i - 1);
      rest
  }

  /** The category filter of `findByCategory`: a null category never
      matches. */
  predicate InCategory(p: Product, category: string)
  {
    p.category == Some(category)
  }

  /** The title filter of `findByTitleContaining`: a null title never
      matches. */
  predicate TitleContains(p: Product, title: string)
  {
    p.title.Some? && Contains(p.title.value, title)
  }

  /** The stored products of a category, in enumeration order. */
  function CategoryMatches(s: Store, category: string): (m: seq<Product>)
    requires Valid(s)
    ensures forall p :: p in m <==> p in FindAll(s) && InCategory(p, category)
  {
    Filter(FindAll(s), p => InCategory(p, category))
  }

  /** The stored products whose title contains `title`, in enumeration
      order. */
  function TitleMatches(s: Store, title: string): (m: seq<Product>)
    requires Valid(s)
    ensures forall p :: p in m <==> p in FindAll(s) && TitleContains(p, title)
  {
    Filter(FindAll(s), p => TitleContains(p, title))
  }

  /** `findByCategory(category, PageRequest.of(page, size))`: the matches
      at ranks `[page * size, page * size + size)`. */
  function FindByCategory(s: Store, category: string, page: int32, size: int32): (r: Page<Product>)
    requires Valid(s) && ValidRequest(page, size) && OffsetFits(page, size)
    ensures r.number == page as int && r.size == size as int
    ensures var m, o := CategoryMatches(s, category), Offset(page, size);
      && |r.content| == (if o >= |m| then 0 else Min(size as int, |m| - o))
      && forall i :: 0 <= i < |r.content| ==> r.content[i] == m[o + i]
    ensures forall p :: p in r.content ==> InCategory(p, category) && p in FindAll(s)
  {
    Page(Slice(CategoryMatches(s, category), Offset(page, size), size as nat), page as int, size as int)
  }

  /** `findByTitleContaining(title, PageRequest.of(page, size))`: the
      matches at ranks `[page * size, page * size + size)`. */
  function FindByTitleContaining(s: Store, title: string, page: int32, size: int32): (r: Page<Product>)
    requires Valid(s) && ValidRequest(page, size) && OffsetFits(page, size)
    ensures r.number == page as int && r.size == size as int
    ensures var m, o := TitleMatches(s, title), Offset(page, size);
      && |r.content| == (if o >= |m| then 0 else Min(size as int, |m| - o))
      && forall i :: 0 <= i < |r.content| ==> r.content[i] == m[o + i]
    ensures forall p :: p in r.content ==> TitleContains(p, title) && p in FindAll(s)
  {
    Page(Slice(TitleMatches(s, title), Offset(page, size), size as nat), page as int, size as int)
  }

  /** Every category match of rank `j` (a Java `int`) is listed: it is
      entry `j - page * size` of page `j / size`. */
  lemma CategoryMatchOnItsPage(s: Store, category: string, j: nat, size: int32)
    requires Valid(s) && size >= 1 && j < |CategoryMatches(s, category)| && j <= 0x7FFF_FFFF
    ensures var page := (j / size as int) as int32;
      && ValidRequest(page, size) && OffsetFits(page, size)
      && var r := FindByCategory(s, category, page, size);
         && j - Offset(page, size) < |r.content|
         && r.content[j - Offset(page, size)] == CategoryMatches(s, category)[j]
  {
    RankHasPage(j, size);
  }

  /** Every title match of rank `j` (a Java `int`) is listed: it is entry
      `j - page * size` of page `j / size`. */
  lemma TitleMatchOnItsPage(s: Store, title: string, j: nat, size: int32)
    requires Valid(s) && size >= 1 && j < |TitleMatches(s, title)| && j <= 0x7FFF_FFFF
    ensures var page := (j / size as int) as int32;
      && ValidRequest(page, size) && OffsetFits(page, size)
      && var r := FindByTitleContaining(s, title, page, size);
         && j - Offset(page, size) < |r.content|
         && r.content[j - Offset(page, size)] == TitleMatches(s, title)[j]
  {
    RankHasPage(j, size);
  }
}
