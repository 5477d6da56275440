/**
  The default orderings the models declare in `Meta.ordering`: recipes
  newest first (`-time_create`), ingredients and tags by name.

  A query reads a table in primary key order (`Table`) and the database then
  sorts it by the ordering column (`SortBy`, an insertion sort; rows
  that tie on the column may come out in either order). Names
  compare by code point, which stands in for the database collation.
*/
module Ordering {
  import opened Results
  import opened Models

  /** The rows of a table with key below `n`, in ascending key order. */
  function Table<T(!new)>(m: map<nat, T>, n: nat): (rows: seq<(nat, T)>)
    ensures forall p :: p in rows <==> p.0 in m && p.0 < n && m[p.0] == p.1
    ensures forall i, j | 0 <= i < j < |rows| :: rows[i].0 < rows[j].0
    decreases n
  {
    if n == 0 then []
    else
      var front := Table(m, n - 1);
      if n - 1 in m then front + [(n - 1, m[n - 1])] else front
  }

  /** No primary key occurs twice. */
  predicate DistinctKeys<T>(rows: seq<(nat, T)>) {
    forall i, j | 0 <= i < j < |rows| :: rows[i].0 != rows[j].0
  }

  /** A sequence with distinct keys holds each row at most once. */
  lemma {:induction false} AtMostOnce<T>(s: seq<(nat, T)>, x: (nat, T))
    requires DistinctKeys(s)
    ensures multiset(s)[x] <= 1
    decreases |s|
  {
    if |s| > 0 {
      assert s == [s[0]] + s[1..];
      assert DistinctKeys(s[1..]) by {
        forall i, j | 0 <= i < j < |s[1..]|
          ensures s[1..][i].0 != s[1..][j].0
        {
          assert s[1..][i] == s[i + 1] && s[1..][j] == s[j + 1];
        }
      }
      AtMostOnce(s[1..], x);
      if s[0] == x {
        forall k | 0 <= k < |s[1..]|
          ensures s[1..][k] != x
        {
          assert s[1..][k] == s[k + 1];
        }
        assert x !in s[1..];
      }
    }
  }

  /** A row at two positions occurs at least twice. */
  lemma TwiceAtLeastTwo<T>(r: seq<T>, i: nat, j: nat)
    requires i < j < |r| && r[i] == r[j]
    ensures multiset(r)[r[i]] >= 2
  {
    assert r == r[..j] + [r[j]] + r[j + 1..];
    assert r[..j][i] == r[i];
    assert r[i] in multiset(r[..j]);
  }

  /** Taking some of the rows of a table, possibly reordered, never repeats
      a key. */
  lemma SubMultisetDistinctKeys<T>(s: seq<(nat, T)>, r: seq<(nat, T)>)
    requires multiset(r) <= multiset(s) && DistinctKeys(s)
    ensures DistinctKeys(r)
  {
    forall i, j | 0 <= i < j < |r|
      ensures r[i].0 != r[j].0
    {
      if r[i] == r[j] {
        TwiceAtLeastTwo(r, i, j);
        AtMostOnce(s, r[i]);
      } else {
        assert r[i] in multiset(s) && r[j] in multiset(s);
        var a :| 0 <= a < |s| && s[a] == r[i];
        var b :| 0 <= b < |s| && s[b] == r[j];
        assert a != b;
        if a < b {
          assert s[a].0 != s[b].0;
        } else {
          assert s[b].0 != s[a].0;
        }
      }
    }
  }

  // ---------------------------------------------------------------------
  // Orders

  ghost predicate Total<T(!new)>(le: (T, T) -> bool) {
    forall a, b :: le(a, b) || le(b, a)
  }

  ghost predicate Transitive<T(!new)>(le: (T, T) -> bool) {
    forall a, b, c :: le(a, b) && le(b, c) ==> le(a, c)
  }

  predicate SortedBy<T>(s: seq<T>, le: (T, T) -> bool) {
    forall i, j | 0 <= i < j < |s| :: le(s[i], s[j])
  }

  /** Lexicographic order on code points; the empty string comes first. */
  predicate LexLe(a: string, b: string)
    decreases |a|
  {
    |a| == 0 || (|b| > 0 && (a[0] < b[0] || (a[0] == b[0] && LexLe(a[1..], b[1..]))))
  }

  lemma {:induction false} LexLeTotal(a: string, b: string)
    ensures LexLe(a, b) || LexLe(b, a)
    decreases |a|
  {
    if |a| > 0 && |b| > 0 && a[0] == b[0] {
      LexLeTotal(a[1..], b[1..]);
    }
  }

  lemma {:induction false} LexLeTransitive(a: string, b: string, c: string)
    requires LexLe(a, b) && LexLe(b, c)
    ensures LexLe(a, c)
    decreases |a|
  {
    if |a| > 0 && a[0] == b[0] && b[0] == c[0] {
      LexLeTransitive(a[1..], b[1..], c[1..]);
    }
  }

  // ---------------------------------------------------------------------
  // Sorting

  function Insert<T(!new)>(x: T, s: seq<T>, le: (T, T) -> bool): (r: seq<T>)
    requires Total(le) && Transitive(le)
    requires SortedBy(s, le)
    ensures SortedBy(r, le)
    ensures multiset(r) == multiset(s) + multiset{x}
  {
    if |s| == 0 then [x]
    else if le(x, s[0]) then
      assert forall j | 0 <= j < |s| :: le(x, s[j]);
      [x] + s
    else
      var rest := Insert(x, s[1..], le);
      assert s == [s[0]] + s[1..];
      LowerBound(s[0], x, s[1..], rest, le);
      [s[0]] + rest
  }

  /** A lower bound of `x` and of every element of `s` bounds every element
      of a sequence that holds exactly those. */
  lemma LowerBound<T>(y: T, x: T, s: seq<T>, r: seq<T>, le: (T, T) -> bool)
    requires multiset(r) == multiset(s) + multiset{x}
    requires le(y, x) && forall j | 0 <= j < |s| :: le(y, s[j])
    ensures forall j | 0 <= j < |r| :: le(y, r[j])
  {
    forall j | 0 <= j < |r|
      ensures le(y, r[j])
    {
      assert r[j] in multiset(r);
      if r[j] != x {
        assert r[j] in multiset(s);
        var k :| 0 <= k < |s| && s[k] == r[j];
      }
    }
  }

  /** An insertion sort: the result is ordered by `le` and holds exactly
      the input's elements. */
  function SortBy<T(!new)>(s: seq<T>, le: (T, T) -> bool): (r: seq<T>)
    requires Total(le) && Transitive(le)
    ensures SortedBy(r, le)
    ensures multiset(r) == multiset(s)
  {
    if |s| == 0 then []
    else
      assert s == s[..|s| - 1] + [s[|s| - 1]];
      Insert(s[|s| - 1], SortBy(s[..|s| - 1], le), le)
  }

  // ---------------------------------------------------------------------
  // The model orderings

  /** `ordering = ('-time_create',)`: a recipe may precede another one that
      was created no later. */
  predicate NewerOrSame(a: (RecipeId, Recipe), b: (RecipeId, Recipe)) {
    a.1.createdAt >= b.1.createdAt
  }

  predicate IngredientNameLe(a: (IngredientId, Ingredient), b: (IngredientId, Ingredient)) {
    LexLe(a.1.name, b.1.name)
  }

  predicate TagNameLe(a: (TagId, Tag), b: (TagId, Tag)) {
    LexLe(a.1.name, b.1.name)
  }

  /** `Recipe.objects.all()` and the recipes of `author`, newest first. */
  function RecipesNewestFirst(db: Db, author: Option<UserId>): (rows: seq<(RecipeId, Recipe)>)
    ensures forall i, j | 0 <= i < j < |rows| :: rows[i].1.createdAt >= rows[j].1.createdAt
    ensures forall p :: p in rows <==>
      p.0 in db.recipes && p.0 < db.nextRecipeId && db.recipes[p.0] == p.1
      && (author.Some? ==> p.1.author == author.value)
    ensures DistinctKeys(rows)
    ensures Valid(db) ==> forall k | k in db.recipes && (author.Some? ==> db.recipes[k].author == author.value) ::
      (k, db.recipes[k]) in rows
  {
    var all := Table(db.recipes, db.nextRecipeId);
    var chosen := if author.Some? then Keep(all, author.value) else all;
    var r := SortBy(chosen, NewerOrSame);
    NewestFirstRows(db, author, all, chosen, r);
    r
  }

  /** What sorting the chosen rows of the recipe table yields. */
  lemma NewestFirstRows(db: Db, author: Option<UserId>, all: seq<(RecipeId, Recipe)>,
                        chosen: seq<(RecipeId, Recipe)>, r: seq<(RecipeId, Recipe)>)
    requires all == Table(db.recipes, db.nextRecipeId)
    requires chosen == if author.Some? then Keep(all, author.value) else all
    requires multiset(r) == multiset(chosen)
    ensures forall p :: p in r <==>
      p.0 in db.recipes && p.0 < db.nextRecipeId && db.recipes[p.0] == p.1
      && (author.Some? ==> p.1.author == author.value)
    ensures DistinctKeys(r)
    ensures Valid(db) ==> forall k | k in db.recipes && (author.Some? ==> db.recipes[k].author == author.value) ::
      (k, db.recipes[k]) in r
  {
    assert forall p :: p in r <==> p in multiset(chosen);
    assert multiset(chosen) <= multiset(all);
    SubMultisetDistinctKeys(all, r);
    if Valid(db) {
      forall k | k in db.recipes && (author.Some? ==> db.recipes[k].author == author.value)
        ensures (k, db.recipes[k]) in r
      {
        assert k < db.nextRecipeId;
        assert (k, db.recipes[k]) in all;
      }
    }
  }

  /** The rows of `rows` written by `author`, in order. */
  function Keep(rows: seq<(RecipeId, Recipe)>, author: UserId): (r: seq<(RecipeId, Recipe)>)
    ensures forall p :: p in r <==> p in rows && p.1.author == author
    ensures multiset(r) <= multiset(rows)
  {
    if |rows| == 0 then []
    else
      assert forall p :: p in rows <==> p == rows[0] || p in rows[1..];
      assert rows == [rows[0]] + rows[1..];
      (if rows[0].1.author == author then [rows[0]] else []) + Keep(rows[1..], author)
  }

  /** `Ingredient.objects.all()`, by name. */
  function IngredientsByName(db: Db): (rows: seq<(IngredientId, Ingredient)>)
    ensures forall i, j | 0 <= i < j < |rows| :: LexLe(rows[i].1.name, rows[j].1.name)
    ensures forall p :: p in rows <==>
      p.0 in db.ingredients && p.0 < db.nextIngredientId && db.ingredients[p.0] == p.1
    ensures DistinctKeys(rows)
    ensures Valid(db) ==> forall k | k in db.ingredients :: (k, db.ingredients[k]) in rows
  {
    assert Total(IngredientNameLe) by {
      forall a: (IngredientId, Ingredient), b: (IngredientId, Ingredient)
        ensures IngredientNameLe(a, b) || IngredientNameLe(b, a)
      {
        LexLeTotal(a.1.name, b.1.name);
      }
    }
    assert Transitive(IngredientNameLe) by {
      forall a: (IngredientId, Ingredient), b: (IngredientId, Ingredient), c: (IngredientId, Ingredient)
        | IngredientNameLe(a, b) && IngredientNameLe(b, c)
        ensures IngredientNameLe(a, c)
      {
        LexLeTransitive(a.1.name, b.1.name, c.1.name);
      }
    }
    var all := Table(db.ingredients, db.nextIngredientId);
    var r := SortBy(all, IngredientNameLe);
    assert forall p :: p in r <==> p in multiset(all);
    SubMultisetDistinctKeys(all, r);
    r
  }

  /** `Tag.objects.all()`, by name. */
  function TagsByName(db: Db): (rows: seq<(TagId, Tag)>)
    ensures forall i, j | 0 <= i < j < |rows| :: LexLe(rows[i].1.name, rows[j].1.name)
    ensures forall p :: p in rows <==> p.0 in db.tags && p.0 < db.nextTagId && db.tags[p.0] == p.1
    ensures DistinctKeys(rows)
    ensures Valid(db) ==> forall k | k in db.tags :: (k, db.tags[k]) in rows
  {
    assert Total(TagNameLe) by {
      forall a: (TagId, Tag), b: (TagId, Tag)
        ensures TagNameLe(a, b) || TagNameLe(b, a)
      {
        LexLeTotal(a.1.name, b.1.name);
      }
    }
    assert Transitive(TagNameLe) by {
      forall a: (TagId, Tag), b: (TagId, Tag), c: (TagId, Tag)
        | TagNameLe(a, b) && TagNameLe(b, c)
        ensures TagNameLe(a, c)
      {
        LexLeTransitive(a.1.name, b.1.name, c.1.name);
      }
    }
    var all := Table(db.tags, db.nextTagId);
    var r := SortBy(all, TagNameLe);
    assert forall p :: p in r <==> p in multiset(all);
    SubMultisetDistinctKeys(all, r);
    r
  }
}
