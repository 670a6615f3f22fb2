/** Datatypes and sequence searches shared by every part of the kernel model. */
module Common {

  datatype Option<+T> = None | Some(value: T)

  datatype Result<+T, +E> = Ok(value: T) | Err(error: E)

  type Byte = b: int | 0 <= b < 256

  /** The lowest index at which `p` holds: what `iter().position(p)` returns. */
  function First<T>(s: seq<T>, p: T -> bool): (r: Option<nat>)
    ensures r.Some? ==> r.value < |s| && p(s[r.value])
    ensures r.Some? ==> forall j :: 0 <= j < r.value ==> !p(s[j])
    ensures r.None? ==> forall j :: 0 <= j < |s| ==> !p(s[j])
  {
    if s == [] then None
    else if p(s[0]) then Some(0)
    else
      match First(s[1..], p)
      case None => assert forall j :: 1 <= j < |s| ==> s[j] == s[1..][j - 1]; None
      case Some(k) => assert forall j :: 1 <= j < |s| ==> s[j] == s[1..][j - 1]; Some(k + 1)
  }

  // ---- finite sets

  ghost function Elements<T>(s: seq<T>): set<T> { set x | x in s }

  lemma {:induction false} SubsetSize<T>(a: set<T>, b: set<T>)
    requires a <= b
    ensures |a| <= |b|
    decreases |a|
  {
    if a != {} {
      var x :| x in a;
      SubsetSize(a - {x}, b - {x});
    }
  }

  lemma {:induction false} ElementsBound<T>(s: seq<T>)
    ensures |Elements(s)| <= |s|
  {
    if s != [] {
      ElementsBound(s[1..]);
      SubsetSize(Elements(s), Elements(s[1..]) + {s[0]});
    }
  }

  /** A one-to-one image has the same size. */
  lemma {:induction false} ImageSize<A, B>(a: set<A>, b: set<B>, f: A -> B)
    requires forall x :: x in a ==> f(x) in b
    requires forall y :: y in b ==> exists x :: x in a && f(x) == y
    requires forall x, y :: x in a && y in a && f(x) == f(y) ==> x == y
    ensures |a| == |b|
    decreases |a|
  {
    if a == {} {
      assert b == {};
    } else {
      var x :| x in a;
      forall y | y in b - {f(x)} ensures exists z :: z in a - {x} && f(z) == y {
        var z :| z in a && f(z) == y;
        assert z in a - {x};
      }
      ImageSize(a - {x}, b - {f(x)}, f);
    }
  }
}
