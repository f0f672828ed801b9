/** Where every carved object is.  `at` gives the contents of each list in order, `held` the objects
    callers hold with the bucket they were allocated from, and `where` the single place of each object. */
module Stores {
  import opened Pages

  datatype Place<S> =
    | InSpan(s: S)
    | InThread(t: nat, i: nat)
    | InFlight(t: nat)
    | Held

  datatype Store<S(==)> = Store(at: map<Place<S>, seq<nat>>, held: map<nat, nat>, where: map<nat, Place<S>>)

  ghost predicate Placed<S>(where: map<nat, Place<S>>, xs: seq<nat>, p: Place<S>) {
    NoDup(xs) && forall a :: a in xs ==> a in where && where[a] == p
  }

  ghost predicate Located<S>(st: Store<S>, a: nat)
    requires a in st.where
  {
    if st.where[a] == Held then a in st.held
    else st.where[a] in st.at && a in st.at[st.where[a]]
  }

  /** Each object is in one place only, and it is really there, once. */
  ghost predicate Arranged<S>(st: Store<S>) {
    && Held !in st.at
    && (forall p :: p in st.at ==> Placed(st.where, st.at[p], p))
    && (forall a :: a in st.held ==> a in st.where && st.where[a] == Held)
    && (forall a :: a in st.where ==> Located(st, a))
  }

  function Relocate<S>(where: map<nat, Place<S>>, xs: seq<nat>, q: Place<S>): map<nat, Place<S>> {
    where + map a: nat | a in xs :: q
  }

  /** Put the first `n` objects of `p` in front of `q`. */
  function MoveFront<S>(st: Store<S>, p: Place<S>, n: nat, q: Place<S>): Store<S>
    requires p in st.at && q in st.at && n <= |st.at[p]|
  {
    var xs := st.at[p][..n];
    st.(at := st.at[p := st.at[p][n..]][q := xs + st.at[q]], where := Relocate(st.where, xs, q))
  }

  /** The first object of `p` goes to a caller. */
  function ToHeld<S>(st: Store<S>, p: Place<S>, i: nat): Store<S>
    requires p in st.at && |st.at[p]| > 0
  {
    var a := st.at[p][0];
    Store(st.at[p := st.at[p][1..]], st.held[a := i], st.where[a := Held])
  }

  /** A caller gives `a` back, to the front of `q`. */
  function FromHeld<S>(st: Store<S>, a: nat, q: Place<S>): Store<S>
    requires q in st.at
  {
    Store(st.at[q := [a] + st.at[q]], st.held - {a}, st.where[a := q])
  }

  /** A new place with newly carved objects. */
  function NewPlace<S>(st: Store<S>, p: Place<S>, xs: seq<nat>): Store<S> {
    st.(at := st.at[p := xs], where := Relocate(st.where, xs, p))
  }

  /** A place disappears with everything in it. */
  function DropPlace<S>(st: Store<S>, p: Place<S>): Store<S>
    requires p in st.at
  {
    st.(at := st.at - {p}, where := st.where - set a | a in st.at[p])
  }

  lemma NoDupJoin(xs: seq<nat>, ys: seq<nat>)
    requires NoDup(xs) && NoDup(ys) && forall a :: a in xs ==> a !in ys
    ensures NoDup(xs + ys)
  {
    var all := xs + ys;
    forall i, j | 0 <= i < j < |all| ensures all[i] != all[j] {
      if i < |xs| <= j {
        assert xs[i] in xs && ys[j - |xs|] in ys;
      }
    }
  }

  lemma MovePlaces<S>(st: Store<S>, p: Place<S>, n: nat, q: Place<S>, o: Place<S>)
    requires Arranged(st) && p in st.at && q in st.at && p != q && n <= |st.at[p]| && o in st.at
    ensures Placed(MoveFront(st, p, n, q).where, MoveFront(st, p, n, q).at[o], o)
  {
    hide Located;
    var r := MoveFront(st, p, n, q);
    var xs := st.at[p][..n];
    assert Placed(st.where, st.at[o], o) && Placed(st.where, st.at[p], p) && Placed(st.where, st.at[q], q);
    assert forall a :: a in xs ==> a in st.at[p];
    if o == p {
      forall a | a in r.at[p] ensures a in r.where && r.where[a] == p {
        SplitApart(st.at[p], n, a);
      }
    } else if o == q {
      NoDupJoin(xs, st.at[q]);
    }
  }

  lemma MoveLocated<S>(st: Store<S>, p: Place<S>, n: nat, q: Place<S>, a: nat)
    requires Arranged(st) && p in st.at && q in st.at && p != q && n <= |st.at[p]|
    requires a in MoveFront(st, p, n, q).where
    ensures Located(MoveFront(st, p, n, q), a)
  {
    hide Placed;
    var xs := st.at[p][..n];
    assert st.at[p] == xs + st.at[p][n..];
    if a !in xs {
      assert Located(st, a);
    }
  }

  lemma MoveFrontKeeps<S>(st: Store<S>, p: Place<S>, n: nat, q: Place<S>)
    requires Arranged(st) && p in st.at && q in st.at && p != q && n <= |st.at[p]|
    ensures Arranged(MoveFront(st, p, n, q))
  {
    hide Placed, Located;
    var r := MoveFront(st, p, n, q);
    var xs := st.at[p][..n];
    assert forall x :: x in xs ==> x in st.at[p];
    forall o | o in r.at ensures Placed(r.where, r.at[o], o) {
      MovePlaces(st, p, n, q, o);
    }
    forall a | a in r.where ensures Located(r, a) {
      MoveLocated(st, p, n, q, a);
    }
    forall a | a in st.held ensures a in r.where && r.where[a] == Held {
      HeldIsNowhereElse(st, a, p);
    }
  }

  lemma SplitApart(xs: seq<nat>, n: nat, a: nat)
    requires NoDup(xs) && n <= |xs| && a in xs[n..]
    ensures a in xs && a !in xs[..n]
  {
  }

  lemma ToHeldKeeps<S>(st: Store<S>, p: Place<S>, i: nat)
    requires Arranged(st) && p in st.at && |st.at[p]| > 0
    ensures Arranged(ToHeld(st, p, i))
  {
    var r := ToHeld(st, p, i);
    var a := st.at[p][0];
    assert a in st.at[p] && st.at[p] == [a] + st.at[p][1..];
    forall o | o in r.at ensures Placed(r.where, r.at[o], o) {
      assert Placed(st.where, st.at[o], o) && Placed(st.where, st.at[p], p);
      if o == p {
        assert a !in r.at[p];
      }
    }
    forall x | x in r.where ensures Located(r, x) {
      if x != a {
        assert Located(st, x);
      }
    }
  }

  lemma FromHeldKeeps<S>(st: Store<S>, a: nat, q: Place<S>)
    requires Arranged(st) && a in st.held && q in st.at
    ensures Arranged(FromHeld(st, a, q))
  {
    var r := FromHeld(st, a, q);
    forall o | o in r.at ensures Placed(r.where, r.at[o], o) {
      assert Placed(st.where, st.at[o], o) && Placed(st.where, st.at[q], q);
      assert a !in st.at[o];
    }
    forall x | x in r.where ensures Located(r, x) {
      if x != a {
        assert Located(st, x);
      }
    }
  }

  lemma NewPlaceKeeps<S>(st: Store<S>, p: Place<S>, xs: seq<nat>)
    requires Arranged(st) && p !in st.at && p != Held && NoDup(xs) && forall a :: a in xs ==> a !in st.where
    ensures Arranged(NewPlace(st, p, xs))
  {
    var r := NewPlace(st, p, xs);
    forall o | o in r.at ensures Placed(r.where, r.at[o], o) {
      if o != p {
        assert Placed(st.where, st.at[o], o);
      }
    }
    forall x | x in r.where ensures Located(r, x) {
      if x !in xs {
        assert Located(st, x);
      }
    }
  }

  lemma DropPlaceKeeps<S>(st: Store<S>, p: Place<S>)
    requires Arranged(st) && p in st.at
    ensures Arranged(DropPlace(st, p))
  {
    var r := DropPlace(st, p);
    forall o | o in r.at ensures Placed(r.where, r.at[o], o) {
      assert Placed(st.where, st.at[o], o) && Placed(st.where, st.at[p], p);
    }
    forall x | x in r.where ensures Located(r, x) {
      assert Located(st, x);
    }
  }

  /** No object is listed twice: two positions with the same object are the same position of the same place. */
  lemma OnePlace<S>(st: Store<S>, p: Place<S>, i: nat, q: Place<S>, j: nat)
    requires Arranged(st) && p in st.at && q in st.at && i < |st.at[p]| && j < |st.at[q]|
    requires st.at[p][i] == st.at[q][j]
    ensures p == q && i == j
  {
    assert Placed(st.where, st.at[p], p) && Placed(st.where, st.at[q], q);
    assert st.at[p][i] in st.at[p] && st.at[q][j] in st.at[q];
  }

  /** An object a caller holds is on no list. */
  lemma HeldIsNowhereElse<S>(st: Store<S>, a: nat, p: Place<S>)
    requires Arranged(st) && a in st.held && p in st.at
    ensures a !in st.at[p]
  {
    assert Placed(st.where, st.at[p], p);
  }

  /** A list of distinct objects that are all in `ys` and as many as `ys` has is all of `ys`. */
  lemma {:induction false} Pigeonhole(xs: seq<nat>, ys: seq<nat>)
    requires NoDup(xs) && |xs| == |ys| && forall a :: a in xs ==> a in ys
    ensures forall a :: a in ys ==> a in xs
  {
    var s, t := set a | a in xs, set a | a in ys;
    SetSize(xs, s);
    SetBound(ys, t);
    assert t == s + (t - s) && |t| == |s| + |t - s|;
    assert t - s == {};
    forall a | a in ys ensures a in xs {
      assert a in t;
    }
  }

  lemma {:induction false} SetSize(xs: seq<nat>, s: set<nat>)
    requires NoDup(xs) && s == set a | a in xs
    ensures |s| == |xs|
  {
    if |xs| > 0 {
      var rest := set a | a in xs[1..];
      SetSize(xs[1..], rest);
      assert xs == [xs[0]] + xs[1..];
      assert s == rest + {xs[0]} && xs[0] !in rest;
    }
  }

  lemma {:induction false} SetBound(ys: seq<nat>, t: set<nat>)
    requires t == set a | a in ys
    ensures |t| <= |ys|
  {
    if |ys| > 0 {
      var rest := set a | a in ys[1..];
      SetBound(ys[1..], rest);
      assert ys == [ys[0]] + ys[1..];
      assert t == rest + {ys[0]};
    }
  }
}
