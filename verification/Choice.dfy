/**
 How a TLS 1.3 server picks the suite and the group: by its own order, but a
 post-quantum group before others, and then a group that the client has sent a
 share for, which saves a round trip.
 */
module Choice {
  import opened Bytes
  import opened ClientHello

  const X25519_MLKEM768: u16 := 4588

  // ----- Suites -----

  /** The first suite in the server's order that the client offers and the library knows. */
  function PickSuite(order: seq<u16>, known: u16 -> bool, offered: seq<u16>): (r: Option<u16>)
    ensures r.Some? ==> r.value in order && r.value in offered && known(r.value)
    ensures r.None? ==> forall s :: s in order && s in offered ==> !known(s)
  {
    if order == [] then None
    else if order[0] in offered && known(order[0]) then Some(order[0])
    else PickSuite(order[1..], known, offered)
  }

  /** Whether the suite is among those offered and known. */
  method MutualSuite(offered: seq<u16>, known: u16 -> bool, want: u16) returns (found: bool)
    ensures found <==> want in offered && known(want)
  {
    for i := 0 to |offered|
      invariant want !in offered[..i]
    {
      if offered[i] == want {
        return known(want);
      }
    }
    return false;
  }

  method ChooseSuite(order: seq<u16>, known: u16 -> bool, offered: seq<u16>) returns (suite: Option<u16>)
    ensures suite == PickSuite(order, known, offered)
  {
    assert order[0..] == order;
    for i := 0 to |order|
      invariant PickSuite(order, known, offered) == PickSuite(order[i..], known, offered)
    {
      assert order[i..][1..] == order[i + 1..];
      var mutual := MutualSuite(offered, known, order[i]);
      if mutual {
        return Some(order[i]);
      }
    }
    return None;
  }

  // ----- Groups -----

  predicate HasShare(h: Hello, group: u16)
  {
    exists i :: 0 <= i < |h.keyShares| && h.keyShares[i].group == group
  }

  /** Higher is better. */
  function Rank(h: Hello, group: u16): (r: nat)
    ensures r < 4
  {
    (if group == X25519_MLKEM768 then 2 else 0) + (if HasShare(h, group) then 1 else 0)
  }

  /** What a group may have that matters to the choice. */
  datatype Merit = Supported | Shared | PostQuantum | Ranked(rank: nat) | Not(t: Merit)

  predicate Has(h: Hello, t: Merit, group: u16)
  {
    match t
    case Supported => group in h.supportedCurves
    case Shared => HasShare(h, group)
    case PostQuantum => group == X25519_MLKEM768
    case Ranked(r) => Rank(h, group) == r
    case Not(u) => !Has(h, u, group)
  }

  function Kept(h: Hello, t: Merit, xs: seq<u16>): seq<u16>
  {
    if xs == [] then [] else (if Has(h, t, xs[0]) then [xs[0]] else []) + Kept(h, t, xs[1..])
  }

  /** The first of the best. */
  function Best(h: Hello, groups: seq<u16>): (r: u16)
    requires groups != []
    ensures r in groups && forall g :: g in groups ==> Rank(h, g) <= Rank(h, r)
  {
    if |groups| == 1 then groups[0] else
    var b := Best(h, groups[1..]);
    if Rank(h, groups[0]) >= Rank(h, b) then groups[0] else b
  }

  function PickGroup(order: seq<u16>, h: Hello): Option<u16>
  {
    var m := Kept(h, Supported, order);
    if m == [] then None else Some(Best(h, m))
  }

  lemma {:induction false} KeptIn(h: Hello, t: Merit, xs: seq<u16>)
    ensures forall x :: x in Kept(h, t, xs) <==> x in xs && Has(h, t, x)
  {
    if xs != [] {
      KeptIn(h, t, xs[1..]);
    }
  }

  /**
   The group picked is in the server's list and the client's, post-quantum if
   any such is, and among its equals has a share if any has.
   */
  lemma PickedGroup(order: seq<u16>, h: Hello)
    ensures PickGroup(order, h).Some? <==> exists g :: g in order && g in h.supportedCurves
    ensures PickGroup(order, h).Some? ==>
              var r := PickGroup(order, h).value;
              && r in order && r in h.supportedCurves
              && forall g :: g in order && g in h.supportedCurves ==>
                   && (g == X25519_MLKEM768 ==> r == X25519_MLKEM768)
                   && (HasShare(h, g) && (g == X25519_MLKEM768 <==> r == X25519_MLKEM768) ==> HasShare(h, r))
  {
    hide HasShare, Kept;
    KeptIn(h, Supported, order);
    if PickGroup(order, h).Some? {
      var r := PickGroup(order, h).value;
      forall g | g in order && g in h.supportedCurves ensures Rank(h, g) <= Rank(h, r) {
        assert g in Kept(h, Supported, order);
      }
    }
  }

  // ----- Stable sorting by a merit -----

  /** A stable sort that puts the groups with the merit in front. */
  function InFront(h: Hello, t: Merit, xs: seq<u16>): seq<u16>
  {
    Kept(h, t, xs) + Kept(h, Not(t), xs)
  }

  lemma {:induction false} KeptConcat(h: Hello, t: Merit, a: seq<u16>, b: seq<u16>)
    ensures Kept(h, t, a + b) == Kept(h, t, a) + Kept(h, t, b)
  {
    hide Has;
    if a == [] {
      assert a + b == b;
    } else {
      assert (a + b)[1..] == a[1..] + b;
      KeptConcat(h, t, a[1..], b);
    }
  }

  lemma {:induction false} KeptTwice(h: Hello, t: Merit, u: Merit, v: Merit, xs: seq<u16>)
    requires forall x :: x in xs ==> (Has(h, v, x) <==> Has(h, t, x) && Has(h, u, x))
    ensures Kept(h, u, Kept(h, t, xs)) == Kept(h, v, xs)
  {
    hide Has;
    if xs != [] {
      KeptTwice(h, t, u, v, xs[1..]);
      KeptConcat(h, u, if Has(h, t, xs[0]) then [xs[0]] else [], Kept(h, t, xs[1..]));
    }
  }

  /** The two sorts, first by share and then by kind, leave the groups in the order of their ranks. */
  lemma SortedByRank(h: Hello, xs: seq<u16>)
    ensures InFront(h, PostQuantum, InFront(h, Shared, xs)) ==
            Kept(h, Ranked(3), xs) + Kept(h, Ranked(2), xs) + (Kept(h, Ranked(1), xs) + Kept(h, Ranked(0), xs))
  {
    hide Kept, HasShare;
    KeptConcat(h, PostQuantum, Kept(h, Shared, xs), Kept(h, Not(Shared), xs));
    KeptConcat(h, Not(PostQuantum), Kept(h, Shared, xs), Kept(h, Not(Shared), xs));
    KeptTwice(h, Shared, PostQuantum, Ranked(3), xs);
    KeptTwice(h, Not(Shared), PostQuantum, Ranked(2), xs);
    KeptTwice(h, Shared, Not(PostQuantum), Ranked(1), xs);
    KeptTwice(h, Not(Shared), Not(PostQuantum), Ranked(0), xs);
  }

  lemma {:induction false} BestIsFirst(h: Hello, xs: seq<u16>)
    requires xs != []
    ensures var o := Kept(h, Ranked(Rank(h, Best(h, xs))), xs); o != [] && o[0] == Best(h, xs)
    ensures forall r :: Rank(h, Best(h, xs)) < r ==> Kept(h, Ranked(r), xs) == []
  {
    hide Rank;
    if |xs| > 1 {
      BestIsFirst(h, xs[1..]);
      forall r | Rank(h, Best(h, xs)) < r ensures Kept(h, Ranked(r), xs) == [] {
        KeptIn(h, Ranked(r), xs);
      }
    }
  }

  lemma KeptNext(h: Hello, t: Merit, xs: seq<u16>, i: nat)
    requires i < |xs|
    ensures Kept(h, t, xs[..i + 1]) == Kept(h, t, xs[..i]) + (if Has(h, t, xs[i]) then [xs[i]] else [])
  {
    hide Has;
    assert xs[..i + 1] == xs[..i] + [xs[i]];
    KeptConcat(h, t, xs[..i], [xs[i]]);
  }

  method SortInFront(h: Hello, t: Merit, xs: seq<u16>) returns (r: seq<u16>)
    ensures r == InFront(h, t, xs)
  {
    var front, back := [], [];
    for i := 0 to |xs|
      invariant front == Kept(h, t, xs[..i]) && back == Kept(h, Not(t), xs[..i])
    {
      hide Kept;
      KeptNext(h, t, xs, i);
      KeptNext(h, Not(t), xs, i);
      if Has(h, t, xs[i]) {
        front := front + [xs[i]];
      } else {
        back := back + [xs[i]];
      }
    }
    assert xs[..|xs|] == xs;
    return front + back;
  }

  /** Drops the groups that the client does not support, sorts the rest twice and takes the first. */
  method ChooseGroup(order: seq<u16>, h: Hello) returns (group: Option<u16>)
    ensures group == PickGroup(order, h)
  {
    var preferred := [];
    for i := 0 to |order|
      invariant preferred == Kept(h, Supported, order[..i])
    {
      hide Kept, HasShare;
      KeptNext(h, Supported, order, i);
      if order[i] in h.supportedCurves {
        preferred := preferred + [order[i]];
      }
    }
    hide Kept, Best, InFront, HasShare;
    assert order[..|order|] == order;
    ghost var m := preferred;
    preferred := SortInFront(h, Shared, preferred);
    preferred := SortInFront(h, PostQuantum, preferred);
    FirstIsBest(h, m);
    group := if |preferred| == 0 then None else Some(preferred[0]);
  }

  lemma FirstIsBest(h: Hello, m: seq<u16>)
    ensures var s := InFront(h, PostQuantum, InFront(h, Shared, m));
            (s == [] <==> m == []) && (m != [] ==> s[0] == Best(h, m))
  {
    hide InFront, Best, HasShare;
    SortedByRank(h, m);
    if m != [] {
      hide Kept;
      BestIsFirst(h, m);
    }
  }
}
