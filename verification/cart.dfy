/**
  The shopping cart report of `download_shopping_cart`: every Amount row of
  every carted recipe contributes its quantity to the running total of its
  ingredient's label (`Ingredient.__str__`, "name, measurement_unit").

  `Aggregate` is the report as a fold over the (label, quantity) lines in
  the order the loop meets them; `SumFor` and `KeysOf` are the reference
  definitions it is proved against. The handler that runs the loop is
  `RecipeViews.DownloadShoppingCart`.
*/
module CartAggregation {
  import opened Results
  import opened Models

  /** One Amount row as the report sees it. */
  datatype Line = Line(key: string, quantity: int)

  /** The labels that occur in `lines`. */
  function KeysOf(lines: seq<Line>): set<string> {
    set i | 0 <= i < |lines| :: lines[i].key
  }

  /** The sum of the quantities of the lines labelled `k`. */
  function SumFor(lines: seq<Line>, k: string): int {
    if |lines| == 0 then 0
    else (if lines[0].key == k then lines[0].quantity else 0) + SumFor(lines[1..], k)
  }

  /** The sum of all quantities. */
  function Total(lines: seq<Line>): int {
    if |lines| == 0 then 0 else lines[0].quantity + Total(lines[1..])
  }

  /** One iteration of the inner loop: add to the label's total if it is
      already in the report, start it otherwise. */
  function Bump(acc: map<string, int>, l: Line): map<string, int> {
    if l.key in acc then acc[l.key := acc[l.key] + l.quantity] else acc[l.key := l.quantity]
  }

  /** The report after folding `lines` into the partial report `acc`. */
  function AggregateFrom(acc: map<string, int>, lines: seq<Line>): map<string, int>
    decreases |lines|
  {
    if |lines| == 0 then acc else AggregateFrom(Bump(acc, lines[0]), lines[1..])
  }

  lemma KeysOfCons(lines: seq<Line>)
    requires |lines| > 0
    ensures KeysOf(lines) == {lines[0].key} + KeysOf(lines[1..])
  {
    forall k | k in KeysOf(lines)
      ensures k in {lines[0].key} + KeysOf(lines[1..])
    {
      var i :| 0 <= i < |lines| && lines[i].key == k;
      if i > 0 {
        assert lines[1..][i - 1].key == k;
      }
    }
    forall k | k in KeysOf(lines[1..])
      ensures k in KeysOf(lines)
    {
      var i :| 0 <= i < |lines[1..]| && lines[1..][i].key == k;
      assert lines[i + 1].key == k;
    }
  }

  /** Folding adds exactly the labels of `lines`, and each label's total
      grows by the sum of its lines' quantities. */
  lemma {:induction false} AggregateFromSpec(acc: map<string, int>, lines: seq<Line>)
    ensures AggregateFrom(acc, lines).Keys == acc.Keys + KeysOf(lines)
    ensures forall k | k in AggregateFrom(acc, lines) ::
      AggregateFrom(acc, lines)[k] == (if k in acc then acc[k] else 0) + SumFor(lines, k)
    decreases |lines|
  {
    if |lines| > 0 {
      KeysOfCons(lines);
      AggregateFromSpec(Bump(acc, lines[0]), lines[1..]);
    }
  }

  /** The report of `download_shopping_cart` for `lines`, starting empty. */
  function Aggregate(lines: seq<Line>): (m: map<string, int>)
    ensures m.Keys == KeysOf(lines)
    ensures forall k | k in m :: m[k] == SumFor(lines, k)
    ensures |lines| == 0 ==> m == map[]
  {
    AggregateFromSpec(map[], lines);
    AggregateFrom(map[], lines)
  }

  // ---------------------------------------------------------------------
  // Folding in two parts

  lemma {:induction false} AggregateConcat(acc: map<string, int>, a: seq<Line>, b: seq<Line>)
    ensures AggregateFrom(acc, a + b) == AggregateFrom(AggregateFrom(acc, a), b)
    decreases |a|
  {
    if |a| > 0 {
      assert (a + b)[0] == a[0];
      assert (a + b)[1..] == a[1..] + b;
      AggregateConcat(Bump(acc, a[0]), a[1..], b);
    } else {
      assert a + b == b;
    }
  }

  /** Folding one more line is one more loop iteration. */
  lemma AggregateSnoc(acc: map<string, int>, a: seq<Line>, l: Line)
    ensures AggregateFrom(acc, a + [l]) == Bump(AggregateFrom(acc, a), l)
  {
    AggregateConcat(acc, a, [l]);
    assert AggregateFrom(Bump(AggregateFrom(acc, a), l), []) == Bump(AggregateFrom(acc, a), l);
  }

  // ---------------------------------------------------------------------
  // Conservation: the report's totals add up to the cart's quantities

  ghost function Pick(m: map<string, int>): (k: string)
    requires m != map[]
    ensures k in m
  {
    assert exists k :: k in m.Keys by {
      assert m.Keys != {};
    }
    var k :| k in m; k
  }

  /** The sum of a report's values. */
  ghost function SumValues(m: map<string, int>): int
    decreases |m|
  {
    if m == map[] then 0
    else
      var k := Pick(m);
      assert |m - {k}| < |m| by {
        assert (m - {k}).Keys == m.Keys - {k};
      }
      m[k] + SumValues(m - {k})
  }

  lemma {:induction false} SumValuesRemove(m: map<string, int>, k: string)
    requires k in m
    ensures SumValues(m) == m[k] + SumValues(m - {k})
    decreases |m|
  {
    var j := Pick(m);
    if j != k {
      assert (m - {j}).Keys == m.Keys - {j};
      assert (m - {k}).Keys == m.Keys - {k};
      SumValuesRemove(m - {j}, k);
      SumValuesRemove(m - {k}, j);
      assert m - {j} - {k} == m - {k} - {j};
    }
  }

  lemma SumValuesBump(acc: map<string, int>, l: Line)
    ensures SumValues(Bump(acc, l)) == SumValues(acc) + l.quantity
  {
    var b := Bump(acc, l);
    SumValuesRemove(b, l.key);
    assert b - {l.key} == acc - {l.key};
    if l.key in acc {
      SumValuesRemove(acc, l.key);
    } else {
      assert acc - {l.key} == acc;
    }
  }

  lemma {:induction false} ConservationFrom(acc: map<string, int>, lines: seq<Line>)
    ensures SumValues(AggregateFrom(acc, lines)) == SumValues(acc) + Total(lines)
    decreases |lines|
  {
    if |lines| > 0 {
      SumValuesBump(acc, lines[0]);
      ConservationFrom(Bump(acc, lines[0]), lines[1..]);
    }
  }

  /** Nothing is lost or counted twice: the report's values add up to the
      sum of all quantities in the cart. */
  lemma Conservation(lines: seq<Line>)
    ensures SumValues(Aggregate(lines)) == Total(lines)
  {
    ConservationFrom(map[], lines);
  }

  // ---------------------------------------------------------------------
  // The report depends only on which lines there are, not on their order

  lemma {:induction false} SumForConcat(a: seq<Line>, b: seq<Line>, k: string)
    ensures SumFor(a + b, k) == SumFor(a, k) + SumFor(b, k)
    decreases |a|
  {
    if |a| > 0 {
      assert (a + b)[0] == a[0];
      assert (a + b)[1..] == a[1..] + b;
      SumForConcat(a[1..], b, k);
    } else {
      assert a + b == b;
    }
  }

  /** The contribution of one line, and what the others add. */
  lemma SumForAt(b: seq<Line>, i: nat, k: string)
    requires i < |b|
    ensures SumFor(b, k) == (if b[i].key == k then b[i].quantity else 0) + SumFor(b[..i] + b[i + 1..], k)
  {
    assert b == b[..i] + ([b[i]] + b[i + 1..]);
    SumForConcat(b[..i], [b[i]] + b[i + 1..], k);
    assert ([b[i]] + b[i + 1..])[1..] == b[i + 1..];
    SumForConcat(b[..i], b[i + 1..], k);
  }

  lemma {:induction false} SumForPermutation(a: seq<Line>, b: seq<Line>, k: string)
    requires multiset(a) == multiset(b)
    ensures SumFor(a, k) == SumFor(b, k)
    decreases |a|
  {
    if |a| == 0 {
      assert |b| == |multiset(b)| == 0;
    } else {
      assert a[0] in multiset(b);
      var i :| 0 <= i < |b| && b[i] == a[0];
      PermutationHead(a, b, i);
      SumForPermutation(a[1..], b[..i] + b[i + 1..], k);
      SumForAt(b, i, k);
    }
  }

  /** Removing the first element of `a` and a copy of it from `b` keeps the
      two sequences permutations of each other. */
  lemma PermutationHead<T>(a: seq<T>, b: seq<T>, i: nat)
    requires multiset(a) == multiset(b) && |a| > 0
    requires i < |b| && b[i] == a[0]
    ensures multiset(a[1..]) == multiset(b[..i] + b[i + 1..])
  {
    RemoveAt(b, i);
    assert a == [a[0]] + a[1..];
    assert multiset(a) == multiset{a[0]} + multiset(a[1..]);
  }

  /** Taking one element out of a sequence takes it out of its multiset. */
  lemma RemoveAt<T>(b: seq<T>, i: nat)
    requires i < |b|
    ensures multiset(b[..i] + b[i + 1..]) == multiset(b) - multiset{b[i]}
  {
    assert b == b[..i] + [b[i]] + b[i + 1..];
    assert multiset(b) == multiset(b[..i]) + multiset{b[i]} + multiset(b[i + 1..]);
  }

  /** Any reordering of the lines yields the same report. */
  lemma AggregatePermutation(a: seq<Line>, b: seq<Line>)
    requires multiset(a) == multiset(b)
    ensures Aggregate(a) == Aggregate(b)
  {
    var ma, mb := Aggregate(a), Aggregate(b);
    assert ma.Keys == mb.Keys by {
      forall k | k in KeysOf(a)
        ensures k in KeysOf(b)
      {
        var i :| 0 <= i < |a| && a[i].key == k;
        assert a[i] in multiset(b);
      }
      forall k | k in KeysOf(b)
        ensures k in KeysOf(a)
      {
        var i :| 0 <= i < |b| && b[i].key == k;
        assert b[i] in multiset(a);
      }
    }
    forall k | k in ma
      ensures ma[k] == mb[k]
    {
      SumForPermutation(a, b, k);
    }
  }

  /** The worked example: two recipes with flour in grams and one with
      flour in cups give one total per unit. */
  lemma FlourExample()
    ensures Aggregate([Line("flour, g", 200), Line("flour, g", 150), Line("flour, cup", 1)])
         == map["flour, g" := 350, "flour, cup" := 1]
  {
    var lines := [Line("flour, g", 200), Line("flour, g", 150), Line("flour, cup", 1)];
    assert "flour, g" != "flour, cup";
    assert lines[1..] == [Line("flour, g", 150), Line("flour, cup", 1)];
    assert lines[2..] == [Line("flour, cup", 1)];
    assert KeysOf(lines) == {"flour, g", "flour, cup"} by {
      assert lines[0].key == "flour, g" && lines[2].key == "flour, cup";
    }
  }

  // ---------------------------------------------------------------------
  // From Amount rows to lines

  /** Every row's ingredient exists (the foreign key resolves). */
  predicate Resolves(db: Db, rows: seq<AmountRow>) {
    forall row | row in rows :: row.ingredient in db.ingredients
  }

  /** `amount.ingredient.__str__()` with `int(amount.amount)`. */
  function LineOf(db: Db, row: AmountRow): Line
    requires row.ingredient in db.ingredients
  {
    Line(DisplayKey(db.ingredients[row.ingredient]), row.amount)
  }

  /** The lines of `rows`, in order. */
  function Lines(db: Db, rows: seq<AmountRow>): (ls: seq<Line>)
    requires Resolves(db, rows)
    ensures |ls| == |rows|
    ensures forall i | 0 <= i < |rows| :: ls[i] == LineOf(db, rows[i])
  {
    if |rows| == 0 then []
    else
      var n := |rows| - 1;
      assert forall row | row in rows[..n] :: row in rows;
      Lines(db, rows[..n]) + [LineOf(db, rows[n])]
  }

  /** The lines of one recipe: `recipe.amount.all()` in table order. */
  function RecipeLines(db: Db, rid: RecipeId): seq<Line>
    requires Resolves(db, db.amounts)
  {
    var rows := Select(db.amounts, OfRecipe(rid));
    assert forall row | row in rows :: row in db.amounts;
    Lines(db, rows)
  }

  /** The lines of the carted recipes `carted`, recipe after recipe. */
  function CartLines(db: Db, carted: seq<RecipeId>): seq<Line>
    requires Resolves(db, db.amounts)
  {
    if |carted| == 0 then []
    else
      var n := |carted| - 1;
      CartLines(db, carted[..n]) + RecipeLines(db, carted[n])
  }

  /** The labels of one recipe's lines are those of its Amount rows. */
  lemma RecipeKeys(db: Db, rid: RecipeId)
    requires Resolves(db, db.amounts)
    ensures forall k :: k in KeysOf(RecipeLines(db, rid)) <==>
      exists row :: row in db.amounts && row.recipe == rid && LineOf(db, row).key == k
  {
    var rows := Select(db.amounts, OfRecipe(rid));
    var ls := RecipeLines(db, rid);
    forall k | k in KeysOf(ls)
      ensures exists row :: row in db.amounts && row.recipe == rid && LineOf(db, row).key == k
    {
      var i :| 0 <= i < |ls| && ls[i].key == k;
      assert rows[i] in rows;
    }
    forall k | exists row :: row in db.amounts && row.recipe == rid && LineOf(db, row).key == k
      ensures k in KeysOf(ls)
    {
      var row :| row in db.amounts && row.recipe == rid && LineOf(db, row).key == k;
      assert row in rows;
      var i :| 0 <= i < |rows| && rows[i] == row;
      assert ls[i].key == k;
    }
  }

  /** A label is in the cart report exactly when some Amount row of a carted
      recipe carries it. */
  lemma {:induction false} CartKeys(db: Db, carted: seq<RecipeId>)
    requires Resolves(db, db.amounts)
    ensures forall k :: k in KeysOf(CartLines(db, carted)) <==>
      exists row :: row in db.amounts && row.recipe in carted && LineOf(db, row).key == k
    decreases |carted|
  {
    if |carted| > 0 {
      var n := |carted| - 1;
      CartKeys(db, carted[..n]);
      RecipeKeys(db, carted[n]);
      KeysOfConcat(CartLines(db, carted[..n]), RecipeLines(db, carted[n]));
      assert carted == carted[..n] + [carted[n]];
      assert forall r :: r in carted <==> r in carted[..n] || r == carted[n];
    }
  }

  lemma KeysOfConcat(a: seq<Line>, b: seq<Line>)
    ensures KeysOf(a + b) == KeysOf(a) + KeysOf(b)
  {
    forall k | k in KeysOf(a)
      ensures k in KeysOf(a + b)
    {
      var i :| 0 <= i < |a| && a[i].key == k;
      assert (a + b)[i].key == k;
    }
    forall k | k in KeysOf(a + b)
      ensures k in KeysOf(a) + KeysOf(b)
    {
      var i :| 0 <= i < |a + b| && (a + b)[i].key == k;
      if i >= |a| {
        assert b[i - |a|].key == k;
      }
    }
    forall k | k in KeysOf(b)
      ensures k in KeysOf(a + b)
    {
      var i :| 0 <= i < |b| && b[i].key == k;
      assert (a + b)[|a| + i].key == k;
    }
  }

  lemma {:induction false} CartLinesConcat(db: Db, a: seq<RecipeId>, b: seq<RecipeId>)
    requires Resolves(db, db.amounts)
    ensures CartLines(db, a + b) == CartLines(db, a) + CartLines(db, b)
    decreases |b|
  {
    if |b| > 0 {
      var n := |b| - 1;
      assert (a + b)[..|a + b| - 1] == a + b[..n];
      assert (a + b)[|a + b| - 1] == b[n];
      CartLinesConcat(db, a, b[..n]);
    } else {
      assert a + b == a;
    }
  }

  /** The lines of a cart split around its `i`-th recipe. */
  lemma CartLinesAround(db: Db, c: seq<RecipeId>, i: nat)
    requires Resolves(db, db.amounts)
    requires i < |c|
    ensures CartLines(db, c) == CartLines(db, c[..i]) + RecipeLines(db, c[i]) + CartLines(db, c[i + 1..])
  {
    var front, mid, back := c[..i], [c[i]], c[i + 1..];
    SplitAt(c, i);
    CartLinesConcat(db, front + mid, back);
    CartLinesConcat(db, front, mid);
    CartLinesSingle(db, c[i]);
  }

  lemma SplitAt<T>(c: seq<T>, i: nat)
    requires i < |c|
    ensures c == c[..i] + [c[i]] + c[i + 1..]
  {
  }

  lemma CartLinesSingle(db: Db, rid: RecipeId)
    requires Resolves(db, db.amounts)
    ensures CartLines(db, [rid]) == RecipeLines(db, rid)
  {
    assert [rid][..0] == [];
  }

  /** Removing the last recipe of `c1` and a copy of it from `c2` keeps the
      two carts permutations of each other. */
  lemma PermutationTail<T>(c1: seq<T>, c2: seq<T>, i: nat)
    requires multiset(c1) == multiset(c2) && |c1| > 0
    requires i < |c2| && c2[i] == c1[|c1| - 1]
    ensures multiset(c1[..|c1| - 1]) == multiset(c2[..i] + c2[i + 1..])
  {
    var n := |c1| - 1;
    RemoveAt(c2, i);
    RemoveAt(c1, n);
    assert c1[..n] + c1[n + 1..] == c1[..n];
  }

  lemma {:induction false} CartLinesPermutation(db: Db, c1: seq<RecipeId>, c2: seq<RecipeId>)
    requires Resolves(db, db.amounts)
    requires multiset(c1) == multiset(c2)
    ensures multiset(CartLines(db, c1)) == multiset(CartLines(db, c2))
    decreases |c1|
  {
    if |c1| > 0 {
      var n := |c1| - 1;
      var x := c1[n];
      assert x in multiset(c2);
      var i :| 0 <= i < |c2| && c2[i] == x;
      var rest := c2[..i] + c2[i + 1..];
      PermutationTail(c1, c2, i);
      CartLinesPermutation(db, c1[..n], rest);
      CartLinesAround(db, c2, i);
      CartLinesConcat(db, c2[..i], c2[i + 1..]);
      var r := RecipeLines(db, x);
      var a, b := CartLines(db, c2[..i]), CartLines(db, c2[i + 1..]);
      assert CartLines(db, c1) == CartLines(db, c1[..n]) + r;
      assert multiset(CartLines(db, c2)) == multiset(a) + multiset(r) + multiset(b);
      assert multiset(CartLines(db, rest)) == multiset(a) + multiset(b);
    }
  }

  /** The report does not depend on the order in which the database lists
      the carted recipes. */
  lemma ReportIndependentOfCartOrder(db: Db, c1: seq<RecipeId>, c2: seq<RecipeId>)
    requires Resolves(db, db.amounts)
    requires multiset(c1) == multiset(c2)
    ensures Aggregate(CartLines(db, c1)) == Aggregate(CartLines(db, c2))
  {
    CartLinesPermutation(db, c1, c2);
    AggregatePermutation(CartLines(db, c1), CartLines(db, c2));
  }
}
