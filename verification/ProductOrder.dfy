/** The order of the words in a product of alternatives (expand/braces.go): the first brace varies slowest, and
    the alternatives of a brace keep their order. */
module ProductOrder {
  import opened Words

  lemma {:induction false} CrossAt(a: seq<Parts>, b: seq<Parts>, i: nat, j: nat)
    requires i < |a| && j < |b|
    ensures |Cross(a, b)| == |a| * |b| && 0 <= i * |b| + j < |a| * |b| && Cross(a, b)[i * |b| + j] == a[i] + b[j]
  {
    CrossSize(a, b);
    RowIn(i, j, |a|, |b|);
    if i > 0 {
      var rest := a[1..];
      CrossAt(rest, b, i - 1, j);
      RowBefore(i, |b|);
      assert Cross(a, b)[i * |b| + j] == Cross(rest, b)[(i - 1) * |b| + j];
    } else {
      assert Cross(a, b)[j] == Attach(a[0], b)[j];
    }
  }

  lemma RowIn(i: nat, j: nat, rows: nat, size: nat)
    requires i < rows && j < size
    ensures 0 <= i * size + j < rows * size
  {
    Rows(i + 1, rows, size);
    assert (i + 1) * size == i * size + size;
  }

  lemma Rows(i: nat, rows: nat, size: nat)
    requires i <= rows
    ensures 0 <= i * size <= rows * size
  {
    assert rows * size == i * size + (rows - i) * size;
  }

  lemma RowBefore(i: nat, size: nat)
    requires i > 0
    ensures i * size == size + (i - 1) * size
  {
  }

  lemma {:induction false} CrossSize(a: seq<Parts>, b: seq<Parts>)
    ensures |Cross(a, b)| == |a| * |b|
  {
    if a != [] {
      CrossSize(a[1..], b);
      RowBefore(|a|, |b|);
    }
  }

  /** The words of two parts in a row: each word of the first with all words of the second, in order. */
  lemma ProductInOrder(u: Parts, v: Parts, i: nat, j: nat)
    requires i < |Product(u)| && j < |Product(v)|
    ensures |Product(u + v)| == |Product(u)| * |Product(v)|
    ensures 0 <= i * |Product(v)| + j < |Product(u + v)|
    ensures Product(u + v)[i * |Product(v)| + j] == Product(u)[i] + Product(v)[j]
  {
    hide Product, Cross;
    ProductAppend(u, v);
    CrossAt(Product(u), Product(v), i, j);
  }

  lemma ProductOne(p: Part)
    ensures Product([p]) == Cross(Alternatives(p), [[]])
  {
    assert [p][1..] == [] && Product([]) == [[]];
  }

  lemma {:induction false} CrossNothing(a: seq<Parts>)
    ensures Cross(a, [[]]) == a
  {
    if a != [] {
      CrossNothing(a[1..]);
      assert a[0] + [] == a[0];
      assert Attach(a[0], [[]]) == [a[0]];
    }
  }

  lemma {:induction false} AllProductsAppend(a: seq<Word>, b: seq<Word>)
    ensures AllProducts(a + b) == AllProducts(a) + AllProducts(b)
  {
    hide Product;
    if a == [] {
      assert a + b == b;
    } else {
      assert (a + b)[1..] == a[1..] + b;
      AllProductsAppend(a[1..], b);
    }
  }

  /** The words of a list are those of its elements, in order; a lone element has its own, and what is no brace
      stays as it is. */
  lemma ListInOrder(a: seq<Word>, b: seq<Word>, w: Word, p: Part)
    ensures Product([List(a + b)]) == Product([List(a)]) + Product([List(b)])
    ensures Product([List([w])]) == Product(w.parts) && Product([]) == [[]]
    ensures !IsBrace(p) ==> Product([p]) == [[p]]
  {
    AllProductsAppend(a, b);
    ListProduct(a);
    ListProduct(b);
    ListProduct(a + b);
    ListProduct([w]);
    assert [w][1..] == [] && AllProducts([]) == [] && AllProducts([w]) == Product(w.parts) + [];
    if !IsBrace(p) { ProductOfPlain([p]); }
  }

  lemma ListProduct(elems: seq<Word>)
    ensures Product([List(elems)]) == AllProducts(elems)
  {
    ProductOne(List(elems));
    CrossNothing(AllProducts(elems));
  }
}
