/** The LINQ list operations the core relies on: Where (a filter; which
    elements it keeps, with their multiplicities, is stated, and their
    order is not), FirstOrDefault, and the stable OrderBy/ThenBy, modelled
    as an insertion sort that places each element after every earlier
    element that is not greater. */
module Listas {
  import opened Comun

  /** `Where(p)` */
  function Filtrar<T(!new)>(p: T -> bool, s: seq<T>): (r: seq<T>)
    ensures |r| <= |s|
    ensures forall i :: 0 <= i < |r| ==> p(r[i])
    ensures forall x :: multiset(r)[x] == if p(x) then multiset(s)[x] else 0
  {
    if s == [] then []
    else
      var init, e := s[..|s| - 1], s[|s| - 1];
      assert s == init + [e];
      Filtrar(p, init) + (if p(e) then [e] else [])
  }

  /** `FirstOrDefault(p)`: the first element satisfying p, or None. */
  function Primero<T(==)>(p: T -> bool, s: seq<T>): (r: Option<T>)
    ensures r.None? <==> forall i :: 0 <= i < |s| ==> !p(s[i])
    ensures r.Some? ==> exists i :: (0 <= i < |s| && s[i] == r.value && p(s[i])
      && forall j :: 0 <= j < i ==> !p(s[j]))
  {
    if s == [] then None
    else if p(s[0]) then Some(s[0])
    else
      var t := Primero(p, s[1..]);
      assert forall i :: 1 <= i < |s| ==> s[i] == s[1..][i - 1];
      if t.Some? then
        var k :| 0 <= k < |s[1..]| && s[1..][k] == t.value && p(s[1..][k])
          && forall j :: 0 <= j < k ==> !p(s[1..][j]);
        assert s[k + 1] == t.value;
        t
      else t
  }

  /** No element occurs twice. */
  ghost predicate SinRepetidos<T>(s: seq<T>) {
    forall i, j :: 0 <= i < j < |s| ==> s[i] != s[j]
  }

  lemma {:induction false} SinRepetidosCuentaUno<T>(s: seq<T>, x: T)
    requires SinRepetidos(s)
    ensures multiset(s)[x] <= 1
  {
    if s != [] {
      var init := s[..|s| - 1];
      assert s == init + [s[|s| - 1]];
      assert SinRepetidos(init);
      SinRepetidosCuentaUno(init, x);
      if x == s[|s| - 1] {
        assert x !in init;
      }
    }
  }

  /** A permutation of a sequence without repetitions has none either. */
  lemma PermutacionSinRepetidos<T>(a: seq<T>, b: seq<T>)
    requires multiset(a) == multiset(b)
    requires SinRepetidos(a)
    ensures SinRepetidos(b)
  {
    forall i, j | 0 <= i < j < |b| ensures b[i] != b[j] {
      if b[i] == b[j] {
        var x := b[i];
        assert b == b[..j] + b[j..];
        assert x in b[..j] && x in b[j..];
        assert multiset(b)[x] == multiset(b[..j])[x] + multiset(b[j..])[x];
        SinRepetidosCuentaUno(a, x);
      }
    }
  }

  /** le is a total preorder: any two elements compare, and it chains. */
  ghost predicate PreordenTotal<T(!new)>(le: (T, T) -> bool) {
    (forall a, b :: le(a, b) || le(b, a))
    && (forall a, b, c :: le(a, b) && le(b, c) ==> le(a, c))
  }

  predicate Ordenada<T>(le: (T, T) -> bool, s: seq<T>) {
    forall i, j :: 0 <= i < j < |s| ==> le(s[i], s[j])
  }

  /** Appending an element not smaller than any element keeps the order. */
  lemma OrdenadaConSufijo<T>(le: (T, T) -> bool, t: seq<T>, x: T)
    requires Ordenada(le, t)
    requires forall y :: y in t ==> le(y, x)
    ensures Ordenada(le, t + [x])
  {
    var r := t + [x];
    forall i, j | 0 <= i < j < |r| ensures le(r[i], r[j]) {
      assert r[i] == t[i];
      if j < |t| {
        assert r[j] == t[j];
      } else {
        assert r[i] in t;
      }
    }
  }

  /** Inserts x into a sorted sequence right after the last element that
      is not greater than x. */
  function InsertarEstable<T(!new)>(le: (T, T) -> bool, s: seq<T>, x: T): (r: seq<T>)
    requires PreordenTotal(le)
    requires Ordenada(le, s)
    ensures Ordenada(le, r)
    ensures multiset(r) == multiset(s) + multiset{x}
    ensures |r| == |s| + 1
  {
    if s == [] || le(s[|s| - 1], x) then
      assert forall y :: y in s ==> le(y, x) by {
        forall y | y in s ensures le(y, x) {
          var k :| 0 <= k < |s| && s[k] == y;
          if k < |s| - 1 {
            assert le(s[k], s[|s| - 1]);
          }
        }
      }
      OrdenadaConSufijo(le, s, x);
      s + [x]
    else
      var ultimo, init := s[|s| - 1], s[..|s| - 1];
      assert s == init + [ultimo];
      assert Ordenada(le, init);
      var t := InsertarEstable(le, init, x);
      assert forall y :: y in multiset(t) ==> y in multiset(init) || y == x;
      assert forall y :: y in t ==> le(y, ultimo) by {
        forall y | y in t ensures le(y, ultimo) {
          assert y in multiset(t);
          if y != x {
            var k :| 0 <= k < |init| && init[k] == y;
            assert le(s[k], s[|s| - 1]);
          }
        }
      }
      OrdenadaConSufijo(le, t, ultimo);
      t + [ultimo]
  }

  /** `OrderBy(key)`: a sorted permutation of s. */
  function OrdenarEstable<T(!new)>(le: (T, T) -> bool, s: seq<T>): (r: seq<T>)
    requires PreordenTotal(le)
    ensures Ordenada(le, r)
    ensures multiset(r) == multiset(s)
    ensures |r| == |s|
  {
    if s == [] then []
    else
      var init := s[..|s| - 1];
      assert s == init + [s[|s| - 1]];
      InsertarEstable(le, OrdenarEstable(le, init), s[|s| - 1])
  }

  /** A permutation has the same elements. */
  lemma MismosElementos<T>(a: seq<T>, b: seq<T>)
    requires multiset(a) == multiset(b)
    ensures forall x :: x in a <==> x in b
  {
    forall x ensures x in a <==> x in b {
      assert x in a <==> x in multiset(a);
      assert x in b <==> x in multiset(b);
    }
  }

  /** An element of a sits at some position of any permutation b of a. */
  lemma PosicionEnPermutacion<T>(a: seq<T>, b: seq<T>, x: T) returns (j: nat)
    requires multiset(a) == multiset(b) && x in a
    ensures j < |b| && b[j] == x
  {
    assert x in multiset(a);
    assert x in multiset(b);
    j :| 0 <= j < |b| && b[j] == x;
  }

  /** An element of s sits at some position of s. */
  lemma Posicion<T>(s: seq<T>, x: T) returns (j: nat)
    requires x in s
    ensures j < |s| && s[j] == x
  {
    j :| 0 <= j < |s| && s[j] == x;
  }

  /** Appending leaves every prefix of the original alone. */
  lemma PrefijoDeAnexo<T>(a: seq<T>, x: T, k: nat)
    requires k <= |a|
    ensures (a + [x])[..k] == a[..k]
  {
  }
}
