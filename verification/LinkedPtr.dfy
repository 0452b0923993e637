/** `linked_ptr` (base/linked_ptr.h): shared ownership by a circular doubly linked list
    of handles, kept on the heap by rewriting the neighbours' links. The handles' fields
    are mirrored in finite maps, on which the reasoning is done; the reference is plain
    shared ownership, which knows who holds what and nothing about rings. */
module LinkedPtr {

  type Handles = map<LinkedPtr, LinkedPtr>
  type Rings = map<LinkedPtr, seq<LinkedPtr>>
  type Owners = map<LinkedPtr, nat>

  /** The live handles: their links, what each points to (0 is null), the ring each is
      in; and the log of `delete`. */
  datatype State = State(next: Handles, prev: Handles, owners: Owners, rings: Rings, deleted: seq<nat>)

  const EMPTY := State(map[], map[], map[], map[], [])

  // ---------------------------------------------------------------------------
  // Rings
  // ---------------------------------------------------------------------------

  function After(i: nat, n: nat): nat
    requires i < n
  {
    if i + 1 == n then 0 else i + 1
  }

  function Before(i: nat, n: nat): nat
    requires i < n
  {
    if i == 0 then n - 1 else i - 1
  }

  ghost predicate Distinct<T>(s: seq<T>)
  {
    forall i, j :: 0 <= i < j < |s| ==> s[i] != s[j]
  }

  /** Every handle is in its ring, and the members of a ring agree on it. */
  ghost predicate Partition(m: Rings)
  {
    && (forall h :: h in m ==> h in m[h] && Distinct(m[h]))
    && (forall h, g :: h in m && g in m[h] ==> g in m && m[g] == m[h])
  }

  /** The links of the handle at position i. */
  ghost predicate Joined(next: Handles, prev: Handles, s: seq<LinkedPtr>, i: nat)
    requires i < |s|
  {
    && s[i] in next && next[s[i]] == s[After(i, |s|)]
    && s[i] in prev && prev[s[i]] == s[Before(i, |s|)]
  }

  /** `s` is linked into a circle in this order, both ways. */
  ghost predicate Circle(next: Handles, prev: Handles, s: seq<LinkedPtr>)
  {
    forall i :: 0 <= i < |s| ==> Joined(next, prev, s, i)
  }

  ghost predicate Linked(next: Handles, prev: Handles, m: Rings)
  {
    && next.Keys == prev.Keys == m.Keys
    && forall h :: h in m ==> Circle(next, prev, m[h])
  }

  /** The members of a ring share one object. */
  ghost predicate Uniform(m: Rings, p: Owners)
    requires p.Keys == m.Keys
  {
    forall h, g :: h in m && g in m[h] ==> g in m && p[g] == p[h]
  }

  /** The handles of one object are in one ring. */
  ghost predicate Exclusive(m: Rings, p: Owners)
    requires p.Keys == m.Keys
  {
    forall h, g :: h in m && g in m && p[h] == p[g] != 0 ==> g in m[h]
  }

  /** What is shared was not deleted, and nothing was deleted twice. */
  ghost predicate Ledger(m: Rings, p: Owners, deleted: seq<nat>)
  {
    && p.Keys == m.Keys && Uniform(m, p) && Exclusive(m, p)
    && (forall h :: h in m && p[h] != 0 ==> p[h] !in deleted)
    && Distinct(deleted) && 0 !in deleted
  }

  ghost predicate Good(st: State)
  {
    && Partition(st.rings) && Linked(st.next, st.prev, st.rings)
    && Ledger(st.rings, st.owners, st.deleted)
  }

  // ---------------------------------------------------------------------------
  // The operations on the mirrored state
  // ---------------------------------------------------------------------------

  ghost function Position(s: seq<LinkedPtr>, h: LinkedPtr): (i: nat)
    requires h in s
    ensures i < |s| && s[i] == h
  {
    var i :| 0 <= i < |s| && s[i] == h;
    i
  }

  ghost function With(s: seq<LinkedPtr>, i: nat, x: LinkedPtr): seq<LinkedPtr>
    requires i < |s|
  {
    s[..i + 1] + [x] + s[i + 1..]
  }

  ghost function Without(s: seq<LinkedPtr>, i: nat): seq<LinkedPtr>
    requires i < |s|
  {
    s[..i] + s[i + 1..]
  }

  ghost function Members(s: seq<LinkedPtr>): set<LinkedPtr> { set g | g in s }

  ghost function Regroup(m: Rings, s: seq<LinkedPtr>, t: seq<LinkedPtr>): Rings
  {
    map h | h in (m.Keys - Members(s)) + Members(t) :: if h in t then t else m[h]
  }

  ghost function Made(st: State, x: LinkedPtr, p: nat): State
  {
    State(st.next[x := x], st.prev[x := x], st.owners[x := p], st.rings[x := [x]], st.deleted)
  }

  /** `acquire` by x from r. */
  ghost function Acquired(st: State, x: LinkedPtr, r: LinkedPtr): State
    requires Good(st) && r in st.rings && x !in st.rings
  {
    var s := st.rings[r];
    State(st.next[x := st.next[r]][r := x],
          st.prev[st.next[r] := x][x := r],
          st.owners[x := st.owners[r]],
          Regroup(st.rings, s, With(s, Position(s, r), x)),
          st.deleted)
  }

  /** `release` by x. */
  ghost function Released(st: State, x: LinkedPtr): State
    requires Good(st) && x in st.rings
  {
    var s, p := st.rings[x], st.owners[x];
    if |s| == 1 then
      State(st.next - {x}, st.prev - {x}, st.owners - {x}, st.rings - {x},
            if p == 0 then st.deleted else st.deleted + [p])
    else
      State(st.next[st.prev[x] := st.next[x]] - {x},
            st.prev[st.next[x] := st.prev[x]] - {x},
            st.owners - {x},
            Regroup(st.rings, s, Without(s, Position(s, x))),
            st.deleted)
  }

  // ---------------------------------------------------------------------------
  // They keep the state good
  // ---------------------------------------------------------------------------

  lemma RingMembers(m: Rings, x: LinkedPtr)
    requires Partition(m) && x in m
    ensures x in m[x] && Distinct(m[x]) && forall g :: g in m[x] ==> g in m && m[g] == m[x]
    ensures Members(m[x]) <= m.Keys
    ensures forall h, g :: h in m && h !in m[x] && g in m[h] ==> g in m && g !in m[x]
  {
  }

  lemma RegroupPartition(m: Rings, x: LinkedPtr, t: seq<LinkedPtr>)
    requires Partition(m) && x in m && Distinct(t)
    requires forall g :: g in t ==> g in m[x] || g !in m
    ensures Partition(Regroup(m, m[x], t))
  {
    var s := m[x];
    RingMembers(m, x);
    var n := Regroup(m, s, t);
    forall h, g | h in n && g in n[h]
      ensures g in n && n[g] == n[h]
    {
      if h !in t {
        assert g in m && g !in s && m[g] == m[h];
      }
    }
  }

  ghost predicate Reowned(m: Rings, p: Owners, x: LinkedPtr, t: seq<LinkedPtr>, q: Owners)
    requires p.Keys == m.Keys && x in m
  {
    && (forall g :: g in t ==> g in m[x] || g !in m)
    && q.Keys == Regroup(m, m[x], t).Keys
    && (forall h :: h in q && h in t ==> q[h] == p[x])
    && (forall h :: h in q && h !in t ==> h in m && h !in m[x] && q[h] == p[h])
  }

  lemma RegroupUniform(m: Rings, p: Owners, x: LinkedPtr, t: seq<LinkedPtr>, q: Owners)
    requires Partition(m) && p.Keys == m.Keys && Uniform(m, p) && x in m && Reowned(m, p, x, t, q)
    ensures Uniform(Regroup(m, m[x], t), q)
  {
    hide Partition, Distinct, Regroup, Reowned;
    var n := Regroup(m, m[x], t);
    forall h, g | h in n && g in n[h]
      ensures g in n && g in q && h in q && q[g] == q[h]
    {
      UniformAt(m, p, x, t, q, h, g);
    }
  }

  lemma UniformAt(m: Rings, p: Owners, x: LinkedPtr, t: seq<LinkedPtr>, q: Owners, h: LinkedPtr, g: LinkedPtr)
    requires Partition(m) && p.Keys == m.Keys && Uniform(m, p) && x in m && Reowned(m, p, x, t, q)
    requires h in Regroup(m, m[x], t) && g in Regroup(m, m[x], t)[h]
    ensures g in Regroup(m, m[x], t) && g in q && h in q && q[g] == q[h]
  {
    var n := Regroup(m, m[x], t);
    RingMembers(m, x);
    hide Partition, Distinct;
    if h in t {
      assert g in t;
    } else {
      assert p[g] == p[h] && g in m && g !in m[x] && g !in t;
    }
  }

  lemma RegroupExclusive(m: Rings, p: Owners, x: LinkedPtr, t: seq<LinkedPtr>, q: Owners)
    requires Partition(m) && p.Keys == m.Keys && Exclusive(m, p) && x in m && Reowned(m, p, x, t, q)
    ensures Exclusive(Regroup(m, m[x], t), q)
  {
    var n := Regroup(m, m[x], t);
    RingMembers(m, x);
    hide Partition;
    forall h, g | h in n && g in n && q[h] == q[g] != 0
      ensures g in n[h]
    {
    }
  }

  lemma RegroupLedger(m: Rings, p: Owners, deleted: seq<nat>, x: LinkedPtr, t: seq<LinkedPtr>, q: Owners)
    requires Partition(m) && Ledger(m, p, deleted) && x in m && Reowned(m, p, x, t, q)
    ensures Ledger(Regroup(m, m[x], t), q, deleted)
  {
    RegroupUniform(m, p, x, t, q);
    RegroupExclusive(m, p, x, t, q);
    hide Partition, Uniform, Exclusive, Regroup;
  }

  /** Rings whose links were left alone are still circles. */
  lemma OthersLinked(next: Handles, prev: Handles, next': Handles, prev': Handles, m: Rings, x: LinkedPtr, h: LinkedPtr)
    requires Partition(m) && Linked(next, prev, m) && x in m && h in m && h !in m[x]
    requires forall g :: g in m && g !in m[x] ==>
      g in next' && next'[g] == next[g] && g in prev' && prev'[g] == prev[g]
    ensures Circle(next', prev', m[h])
  {
    RingMembers(m, x);
    var s := m[h];
    forall i | 0 <= i < |s|
      ensures Joined(next', prev', s, i)
    {
      assert Joined(next, prev, s, i);
      assert s[i] in m && s[i] !in m[x];
    }
  }

  lemma WithFacts(s: seq<LinkedPtr>, i: nat, x: LinkedPtr)
    requires i < |s| && Distinct(s) && x !in s
    ensures Distinct(With(s, i, x))
    ensures forall g :: g in With(s, i, x) <==> g in s || g == x
    ensures Members(With(s, i, x)) == Members(s) + {x}
  {
    var t := With(s, i, x);
    forall g | g in s
      ensures g in t
    {
      var j := Position(s, g);
      assert t[if j <= i then j else j + 1] == g;
    }
    assert t[i + 1] == x;
  }

  lemma WithoutFacts(s: seq<LinkedPtr>, i: nat)
    requires i < |s| && Distinct(s)
    ensures Distinct(Without(s, i))
    ensures forall g :: g in Without(s, i) <==> g in s && g != s[i]
    ensures Members(Without(s, i)) == Members(s) - {s[i]}
  {
    var t := Without(s, i);
    forall g | g in s && g != s[i]
      ensures g in t
    {
      var j := Position(s, g);
      assert t[if j < i then j else j - 1] == g;
    }
  }

  lemma CircleWith(next: Handles, prev: Handles, s: seq<LinkedPtr>, i: nat, x: LinkedPtr)
    requires Circle(next, prev, s) && Distinct(s) && i < |s| && x !in s
    ensures Joined(next, prev, s, i)
    ensures Circle(next[x := next[s[i]]][s[i] := x], prev[next[s[i]] := x][x := s[i]], With(s, i, x))
  {
    assert Joined(next, prev, s, i);
    var t, n := With(s, i, x), |s|;
    var next', prev' := next[x := next[s[i]]][s[i] := x], prev[next[s[i]] := x][x := s[i]];
    forall k | 0 <= k < n + 1
      ensures Joined(next', prev', t, k)
    {
      var a, b := After(k, n + 1), Before(k, n + 1);
      assert t[k] == if k <= i then s[k] else if k == i + 1 then x else s[k - 1];
      assert k != i + 1 ==> Joined(next, prev, s, if k <= i then k else k - 1);
      assert t[a] == if a <= i then s[a] else if a == i + 1 then x else s[a - 1];
      assert t[b] == if b <= i then s[b] else if b == i + 1 then x else s[b - 1];
    }
  }

  lemma CircleWithout(next: Handles, prev: Handles, s: seq<LinkedPtr>, i: nat)
    requires Circle(next, prev, s) && Distinct(s) && i < |s| && 1 < |s|
    ensures Joined(next, prev, s, i)
    ensures Circle(next[prev[s[i]] := next[s[i]]] - {s[i]}, prev[next[s[i]] := prev[s[i]]] - {s[i]}, Without(s, i))
  {
    assert Joined(next, prev, s, i);
    var t, n := Without(s, i), |s|;
    var next', prev' := next[prev[s[i]] := next[s[i]]] - {s[i]}, prev[next[s[i]] := prev[s[i]]] - {s[i]};
    forall k | 0 <= k < n - 1
      ensures Joined(next', prev', t, k)
    {
      var a, b := After(k, n - 1), Before(k, n - 1);
      assert t[k] == if k < i then s[k] else s[k + 1];
      assert Joined(next, prev, s, if k < i then k else k + 1);
      assert t[a] == if a < i then s[a] else s[a + 1];
      assert t[b] == if b < i then s[b] else s[b + 1];
    }
  }

  lemma NewLedger(m: Rings, o: Owners, deleted: seq<nat>, x: LinkedPtr, p: nat)
    requires Partition(m) && Ledger(m, o, deleted) && x !in m
    requires p != 0 ==> p !in deleted && p !in o.Values
    ensures Partition(m[x := [x]]) && Ledger(m[x := [x]], o[x := p], deleted)
  {
    forall h | h in m
      ensures m[h] != [x]
    {
      assert h in m[h];
    }
  }

  lemma NewLinks(next: Handles, prev: Handles, m: Rings, x: LinkedPtr)
    requires Partition(m) && Linked(next, prev, m) && x !in m
    ensures Linked(next[x := x], prev[x := x], m[x := [x]])
  {
    forall h | h in m
      ensures Circle(next[x := x], prev[x := x], m[h])
    {
      var s, next', prev' := m[h], next[x := x], prev[x := x];
      forall i | 0 <= i < |s|
        ensures Joined(next', prev', s, i)
      {
        assert Joined(next, prev, s, i);
        assert s[i] in m;
      }
    }
    assert Joined(next[x := x], prev[x := x], [x], 0);
  }

  lemma MadeGood(st: State, x: LinkedPtr, p: nat)
    requires Good(st) && x !in st.rings
    requires p != 0 ==> p !in st.deleted && p !in st.owners.Values
    ensures Good(Made(st, x, p)) && Made(st, x, p).deleted == st.deleted
  {
    hide Partition, Ledger, Linked;
    NewLedger(st.rings, st.owners, st.deleted, x, p);
    NewLinks(st.next, st.prev, st.rings, x);
  }

  /** One ring's links rewritten, the others' left alone. */
  lemma RegroupLinks(next: Handles, prev: Handles, next': Handles, prev': Handles, m: Rings, x: LinkedPtr, t: seq<LinkedPtr>)
    requires Partition(m) && Linked(next, prev, m) && x in m && Circle(next', prev', t)
    requires next'.Keys == prev'.Keys == Regroup(m, m[x], t).Keys
    requires forall g :: g in m && g !in m[x] ==> next'[g] == next[g] && prev'[g] == prev[g]
    ensures Linked(next', prev', Regroup(m, m[x], t))
  {
    hide Circle, Joined, Distinct, Partition;
    var n := Regroup(m, m[x], t);
    forall h | h in n
      ensures Circle(next', prev', n[h])
    {
      if h !in t {
        OthersLinked(next, prev, next', prev', m, x, h);
      }
    }
  }

  lemma RegroupKeys(m: Rings, s: seq<LinkedPtr>, t: seq<LinkedPtr>, x: LinkedPtr)
    requires Members(s) <= m.Keys
    ensures Members(t) == Members(s) + {x} ==> Regroup(m, s, t).Keys == m.Keys + {x}
    ensures x in s && Members(t) == Members(s) - {x} ==> Regroup(m, s, t).Keys == m.Keys - {x}
  {
  }

  lemma JoinLinks(next: Handles, prev: Handles, m: Rings, r: LinkedPtr, i: nat, x: LinkedPtr)
    requires Partition(m) && Linked(next, prev, m) && r in m && x !in m
    requires i < |m[r]| && m[r][i] == r
    ensures Linked(next[x := next[r]][r := x], prev[next[r] := x][x := r], Regroup(m, m[r], With(m[r], i, x)))
  {
    hide Circle, Joined, Distinct, Partition, Regroup, With, Members, Linked;
    LinkAt(next, prev, m, r, i);
    RingMembers(m, r);
    WithFacts(m[r], i, x);
    CircleWith(next, prev, m[r], i, x);
    RegroupKeys(m, m[r], With(m[r], i, x), x);
    KeysOf(next, x, next[r], r, x);
    KeysOf(prev, next[r], x, x, r);
    RegroupLinks(next, prev, next[x := next[r]][r := x], prev[next[r] := x][x := r], m, r, With(m[r], i, x));
  }

  lemma KeysOf(m: Handles, a: LinkedPtr, b: LinkedPtr, c: LinkedPtr, d: LinkedPtr)
    ensures m[a := b][c := d].Keys == m.Keys + {a} + {c}
    ensures a in m ==> m.Keys + {a} + {c} == m.Keys + {c}
    ensures c in m ==> m.Keys + {a} + {c} == m.Keys + {a}
    ensures forall g :: g in m && g != a && g != c ==> m[a := b][c := d][g] == m[g]
  {
  }

  lemma LinkAt(next: Handles, prev: Handles, m: Rings, x: LinkedPtr, i: nat)
    requires Partition(m) && Linked(next, prev, m) && x in m
    requires i < |m[x]| && m[x][i] == x
    ensures Circle(next, prev, m[x]) && Joined(next, prev, m[x], i)
    ensures next.Keys == prev.Keys == m.Keys
    ensures next[x] in m[x] && prev[x] in m[x] && next[x] in m && prev[x] in m
  {
    assert Joined(next, prev, m[x], i);
  }

  lemma JoinLedger(m: Rings, o: Owners, deleted: seq<nat>, r: LinkedPtr, i: nat, x: LinkedPtr)
    requires Partition(m) && Ledger(m, o, deleted) && r in m && x !in m
    requires i < |m[r]| && m[r][i] == r
    ensures Partition(Regroup(m, m[r], With(m[r], i, x)))
    ensures Ledger(Regroup(m, m[r], With(m[r], i, x)), o[x := o[r]], deleted)
  {
    hide Distinct, Partition, Ledger, Regroup, With, Members, Reowned;
    RingMembers(m, r);
    WithFacts(m[r], i, x);
    SharedBy(m, o, deleted, r);
    RegroupPartition(m, r, With(m[r], i, x));
    JoinOwned(m, o, r, i, x);
    RegroupLedger(m, o, deleted, r, With(m[r], i, x), o[x := o[r]]);
  }

  lemma JoinOwned(m: Rings, o: Owners, r: LinkedPtr, i: nat, x: LinkedPtr)
    requires Partition(m) && r in m && x !in m && i < |m[r]| && m[r][i] == r
    requires o.Keys == m.Keys && forall g :: g in m[r] ==> g in o && o[g] == o[r]
    ensures Reowned(m, o, r, With(m[r], i, x), o[x := o[r]])
  {
    hide Distinct, Partition, Regroup, With, Members;
    RingMembers(m, r);
    WithFacts(m[r], i, x);
    RegroupKeys(m, m[r], With(m[r], i, x), x);
  }

  lemma SharedBy(m: Rings, o: Owners, deleted: seq<nat>, x: LinkedPtr)
    requires Partition(m) && Ledger(m, o, deleted) && x in m
    ensures o.Keys == m.Keys && forall g :: g in m[x] ==> g in o && o[g] == o[x]
  {
    RingMembers(m, x);
  }

  /** Linking in behind r makes one ring of r's ring and x, and touches no other. */
  lemma AcquiredGood(st: State, x: LinkedPtr, r: LinkedPtr)
    requires Good(st) && r in st.rings && x !in st.rings
    ensures Good(Acquired(st, x, r)) && Acquired(st, x, r).deleted == st.deleted
  {
    RingMembers(st.rings, r);
    hide Partition, Ledger, Linked, Regroup, With, Distinct;
    var i := Position(st.rings[r], r);
    JoinLinks(st.next, st.prev, st.rings, r, i, x);
    JoinLedger(st.rings, st.owners, st.deleted, r, i, x);
  }

  lemma BridgeLinks(next: Handles, prev: Handles, m: Rings, x: LinkedPtr, i: nat)
    requires Partition(m) && Linked(next, prev, m) && x in m
    requires i < |m[x]| && m[x][i] == x && 1 < |m[x]|
    ensures Linked(next[prev[x] := next[x]] - {x}, prev[next[x] := prev[x]] - {x}, Regroup(m, m[x], Without(m[x], i)))
  {
    hide Circle, Joined, Distinct, Partition, Regroup, Without, Members, Linked;
    LinkAt(next, prev, m, x, i);
    RingMembers(m, x);
    WithoutFacts(m[x], i);
    CircleWithout(next, prev, m[x], i);
    RegroupKeys(m, m[x], Without(m[x], i), x);
    KeysLess(next, prev[x], next[x], x);
    KeysLess(prev, next[x], prev[x], x);
    RegroupLinks(next, prev, next[prev[x] := next[x]] - {x}, prev[next[x] := prev[x]] - {x}, m, x, Without(m[x], i));
  }

  lemma KeysLess(m: Handles, a: LinkedPtr, b: LinkedPtr, x: LinkedPtr)
    requires a in m
    ensures (m[a := b] - {x}).Keys == m.Keys - {x}
    ensures forall g :: g in m && g != a && g != x ==> (m[a := b] - {x})[g] == m[g]
  {
  }

  lemma BridgeLedger(m: Rings, o: Owners, deleted: seq<nat>, x: LinkedPtr, i: nat)
    requires Partition(m) && Ledger(m, o, deleted) && x in m
    requires i < |m[x]| && m[x][i] == x
    ensures Partition(Regroup(m, m[x], Without(m[x], i)))
    ensures Ledger(Regroup(m, m[x], Without(m[x], i)), o - {x}, deleted)
  {
    var t := Without(m[x], i);
    SharedBy(m, o, deleted, x);
    hide Distinct, Partition, Ledger, Regroup, Without, Members;
    RingMembers(m, x);
    WithoutFacts(m[x], i);
    RegroupKeys(m, m[x], t, x);
    RegroupPartition(m, x, t);
    RegroupLedger(m, o, deleted, x, t, o - {x});
  }

  /** A ring of one ends, and its object with it. */
  lemma EndLedger(m: Rings, o: Owners, deleted: seq<nat>, x: LinkedPtr)
    requires Partition(m) && Ledger(m, o, deleted) && x in m && |m[x]| == 1
    ensures Partition(m - {x})
    ensures Ledger(m - {x}, o - {x}, if o[x] == 0 then deleted else deleted + [o[x]])
  {
    EndPartition(m, x);
    EndOwners(m, o, x);
    EndDeleted(m, o, deleted, x);
    hide Partition, Uniform, Exclusive;
  }

  /** Whoever is not in a ring of one is in a ring without its handle. */
  lemma Others(m: Rings, x: LinkedPtr)
    requires Partition(m) && x in m && |m[x]| == 1
    ensures m[x] == [x] && forall h, g :: h in m && h != x && g in m[h] ==> g in m && g != x
  {
    assert m[x] == [x];
    RingMembers(m, x);
  }

  lemma EndPartition(m: Rings, x: LinkedPtr)
    requires Partition(m) && x in m && |m[x]| == 1
    ensures Partition(m - {x})
  {
    Others(m, x);
  }

  lemma EndOwners(m: Rings, o: Owners, x: LinkedPtr)
    requires Partition(m) && x in m && |m[x]| == 1 && o.Keys == m.Keys && Uniform(m, o) && Exclusive(m, o)
    ensures (o - {x}).Keys == (m - {x}).Keys && Uniform(m - {x}, o - {x}) && Exclusive(m - {x}, o - {x})
  {
    Others(m, x);
    hide Partition;
  }

  /** The object that ends was shared with nobody. */
  lemma EndDeleted(m: Rings, o: Owners, deleted: seq<nat>, x: LinkedPtr)
    requires Partition(m) && Ledger(m, o, deleted) && x in m && |m[x]| == 1
    ensures var later := if o[x] == 0 then deleted else deleted + [o[x]];
      && (forall h :: h in m && h != x && o[h] != 0 ==> o[h] !in later)
      && Distinct(later) && 0 !in later
  {
    Others(m, x);
    assert forall h :: h in m && h != x && o[x] != 0 ==> o[h] != o[x];
  }

  lemma EndLinks(next: Handles, prev: Handles, m: Rings, x: LinkedPtr)
    requires Partition(m) && Linked(next, prev, m) && x in m && |m[x]| == 1
    ensures Linked(next - {x}, prev - {x}, m - {x})
  {
    hide Circle, Joined, Distinct, Partition;
    RingMembers(m, x);
    forall h | h in m && h != x
      ensures Circle(next - {x}, prev - {x}, m[h])
    {
      OthersLinked(next, prev, next - {x}, prev - {x}, m, x, h);
    }
  }

  /** Leaving bridges the ring, or ends it. */
  lemma ReleasedGood(st: State, x: LinkedPtr)
    requires Good(st) && x in st.rings
    ensures Good(Released(st, x)) && Released(st, x).rings.Keys == st.rings.Keys - {x}
  {
    SameKeys(st);
    RingMembers(st.rings, x);
    hide Partition, Ledger, Linked, Regroup, Without, Distinct;
    if |st.rings[x]| == 1 {
      EndLinks(st.next, st.prev, st.rings, x);
      EndLedger(st.rings, st.owners, st.deleted, x);
    } else {
      var i := Position(st.rings[x], x);
      BridgeLinks(st.next, st.prev, st.rings, x, i);
      BridgeLedger(st.rings, st.owners, st.deleted, x, i);
      SameKeys(Released(st, x));
    }
  }

  lemma SameKeys(st: State)
    requires Good(st)
    ensures st.next.Keys == st.prev.Keys == st.owners.Keys == st.rings.Keys
  {
  }

  /** What `unique` reads off the links. */
  lemma NextInRing(st: State, x: LinkedPtr)
    requires Good(st) && x in st.rings
    ensures st.next[x] in st.rings && st.prev[x] in st.rings
    ensures st.prev[x] == x <==> |st.rings[x]| == 1
    ensures st.next[x] == x <==> |st.rings[x]| == 1
  {
    var s := st.rings[x];
    RingMembers(st.rings, x);
    assert Joined(st.next, st.prev, s, Position(s, x));
  }

  // ---------------------------------------------------------------------------
  // Plain shared ownership
  // ---------------------------------------------------------------------------

  /** x lets go of its object, which dies if nobody else holds it. */
  ghost function Leave(owners: Owners, deleted: seq<nat>, x: LinkedPtr): (Owners, seq<nat>)
    requires x in owners
  {
    var rest, p := owners - {x}, owners[x];
    (rest, if p != 0 && p !in rest.Values then deleted + [p] else deleted)
  }

  /** Being alone in the ring is being the last owner. */
  lemma ReleasedIsLeave(st: State, x: LinkedPtr)
    requires Good(st) && x in st.rings
    ensures (Released(st, x).owners, Released(st, x).deleted) == Leave(st.owners, st.deleted, x)
  {
    var m, o := st.rings, st.owners;
    RingMembers(m, x);
    var s := m[x];
    if |s| == 1 {
      assert s == [x];
      forall h | h in o && h != x
        ensures o[h] != o[x] || o[x] == 0
      {
        assert h in m[h];
      }
    } else {
      var g := if s[0] == x then s[1] else s[0];
      assert g in s && g != x && o[g] == o[x];
      assert (o - {x})[g] == o[x];
    }
  }

  datatype Op =
    | Construct(x: LinkedPtr, p: nat)
    | Copy(x: LinkedPtr, r: LinkedPtr)
    | Assign(x: LinkedPtr, r: LinkedPtr)
    | Destroy(x: LinkedPtr)

  /** What C++ asks: handles are constructed once and used while alive, and an object is
      handed to one first handle only. */
  ghost predicate Allowed(owners: Owners, deleted: seq<nat>, op: Op)
  {
    match op
    case Construct(x, p) => x !in owners && (p != 0 ==> p !in owners.Values && p !in deleted)
    case Copy(x, r) => x !in owners && r in owners
    case Assign(x, r) => x in owners && r in owners
    case Destroy(x) => x in owners
  }

  ghost function Share(owners: Owners, deleted: seq<nat>, op: Op): (Owners, seq<nat>)
    requires Allowed(owners, deleted, op)
  {
    match op
    case Construct(x, p) => (owners[x := p], deleted)
    case Copy(x, r) => (owners[x := owners[r]], deleted)
    case Assign(x, r) =>
      if x == r then (owners, deleted)
      else
        var left := Leave(owners, deleted, x);
        (left.0[x := owners[r]], left.1)
    case Destroy(x) => Leave(owners, deleted, x)
  }

  ghost predicate Legal(ops: seq<Op>)
    decreases |ops|, 0
  {
    ops == [] ||
    var before := ops[..|ops| - 1];
    Legal(before) && Allowed(Shared(before).0, Shared(before).1, ops[|ops| - 1])
  }

  /** Who holds what, and what was deleted, after a whole run. */
  ghost function Shared(ops: seq<Op>): (Owners, seq<nat>)
    requires Legal(ops)
    decreases |ops|, 1
  {
    if ops == [] then (map[], [])
    else
      var before := Shared(ops[..|ops| - 1]);
      Share(before.0, before.1, ops[|ops| - 1])
  }

  // ---------------------------------------------------------------------------
  // Whole runs of the rings
  // ---------------------------------------------------------------------------

  ghost function Step(st: State, op: Op): State
    requires Good(st) && Allowed(st.owners, st.deleted, op)
  {
    SameKeys(st);
    match op
    case Construct(x, p) => Made(st, x, p)
    case Copy(x, r) => Acquired(st, x, r)
    case Assign(x, r) =>
      if x == r then st else ReleasedGood(st, x); Acquired(Released(st, x), x, r)
    case Destroy(x) => Released(st, x)
  }

  /** Every operation keeps the rings well formed and does to owners and deletions what
      plain shared ownership does, also when assigning within one ring. */
  lemma StepShares(st: State, op: Op)
    requires Good(st) && Allowed(st.owners, st.deleted, op)
    ensures Good(Step(st, op))
    ensures (Step(st, op).owners, Step(st, op).deleted) == Share(st.owners, st.deleted, op)
  {
    hide Partition, Linked, Ledger, Good, Released, Leave;
    SameKeys(st);
    match op {
      case Construct(x, p) => MadeGood(st, x, p);
      case Copy(x, r) => AcquiredGood(st, x, r);
      case Assign(x, r) =>
        if x != r {
          ReleasedGood(st, x);
          ReleasedIsLeave(st, x);
          SameKeys(Released(st, x));
          AcquiredGood(Released(st, x), x, r);
          assert Leave(st.owners, st.deleted, x).0[r] == st.owners[r] by { LeaveKeeps(st.owners, st.deleted, x, r); }
        }
      case Destroy(x) =>
        ReleasedGood(st, x);
        ReleasedIsLeave(st, x);
    }
  }

  lemma LeaveKeeps(owners: Owners, deleted: seq<nat>, x: LinkedPtr, r: LinkedPtr)
    requires x in owners && r in owners && x != r
    ensures r in Leave(owners, deleted, x).0 && Leave(owners, deleted, x).0[r] == owners[r]
  {
  }

  ghost function Run(ops: seq<Op>): (st: State)
    requires Legal(ops)
    ensures Good(st) && (st.owners, st.deleted) == Shared(ops)
    decreases |ops|
  {
    if ops == [] then EMPTY
    else
      var before, op := Run(ops[..|ops| - 1]), ops[|ops| - 1];
      StepShares(before, op);
      Step(before, op)
  }

  /** The objects ever handed over. */
  ghost function Objects(ops: seq<Op>): set<nat>
  {
    if ops == [] then {}
    else
      var op := ops[|ops| - 1];
      Objects(ops[..|ops| - 1]) + if op.Construct? && op.p != 0 then {op.p} else {}
  }

  /** Deleted are exactly the objects that nobody holds any more. */
  ghost predicate Books(owners: Owners, deleted: seq<nat>, all: set<nat>)
  {
    && (forall p :: p in all ==> (p in deleted <==> p !in owners.Values))
    && (forall p :: p in deleted ==> p in all)
    && (forall p :: p in owners.Values && p != 0 ==> p in all)
    && 0 !in all
  }

  lemma LeaveBooks(owners: Owners, deleted: seq<nat>, x: LinkedPtr, all: set<nat>)
    requires x in owners && Books(owners, deleted, all)
    ensures Books(Leave(owners, deleted, x).0, Leave(owners, deleted, x).1, all)
  {
    var rest := owners - {x};
    forall p | p in owners.Values && p != owners[x]
      ensures p in rest.Values
    {
      var h: LinkedPtr :| h in owners && owners[h] == p;
      assert rest[h] == p;
    }
    assert forall p :: p in rest.Values ==> p in owners.Values;
  }

  lemma GainBooks(owners: Owners, deleted: seq<nat>, x: LinkedPtr, p: nat, all: set<nat>)
    requires x !in owners && Books(owners, deleted, all) && p !in deleted
    ensures Books(owners[x := p], deleted, all + if p == 0 then {} else {p})
  {
    var more := owners[x := p];
    assert more[x] == p;
    forall q | q in owners.Values
      ensures q in more.Values
    {
      var h: LinkedPtr :| h in owners && owners[h] == q;
      assert more[h] == q;
    }
  }

  lemma ShareBooks(owners: Owners, deleted: seq<nat>, op: Op, all: set<nat>)
    requires Allowed(owners, deleted, op) && Books(owners, deleted, all)
    ensures var after := Share(owners, deleted, op);
      Books(after.0, after.1, all + if op.Construct? && op.p != 0 then {op.p} else {})
  {
    assert 0 !in deleted;
    assert all + {} == all;
    match op {
      case Construct(x, p) => GainBooks(owners, deleted, x, p, all);
      case Copy(x, r) => CopyBooks(owners, deleted, x, r, all);
      case Assign(x, r) =>
        if x != r {
          LeaveBooks(owners, deleted, x, all);
          LeaveKeeps(owners, deleted, x, r);
          var left := Leave(owners, deleted, x);
          CopyBooks(left.0, left.1, x, r, all);
        }
      case Destroy(x) => LeaveBooks(owners, deleted, x, all);
    }
  }

  lemma CopyBooks(owners: Owners, deleted: seq<nat>, x: LinkedPtr, r: LinkedPtr, all: set<nat>)
    requires x !in owners && r in owners && Books(owners, deleted, all)
    ensures Books(owners[x := owners[r]], deleted, all)
  {
    var p := owners[r];
    assert p in owners.Values;
    GainBooks(owners, deleted, x, p, all);
    assert all + (if p == 0 then {} else {p}) == all;
  }

  /** After every run an object has been deleted, once, if and only if its last handle has
      left; and only objects that were handed over are ever deleted. */
  lemma {:induction false} DeletedIffAbandoned(ops: seq<Op>)
    requires Legal(ops)
    ensures Books(Run(ops).owners, Run(ops).deleted, Objects(ops)) && Distinct(Run(ops).deleted)
    decreases |ops|
  {
    if ops != [] {
      hide Books, Allowed, Share, Step;
      var before, op := ops[..|ops| - 1], ops[|ops| - 1];
      DeletedIffAbandoned(before);
      ShareBooks(Shared(before).0, Shared(before).1, op, Objects(before));
    }
  }

  // ---------------------------------------------------------------------------
  // The handles on the heap
  // ---------------------------------------------------------------------------

  /** The handle's fields are those mirrored in `st`. */
  ghost predicate Mirrored(st: State, h: LinkedPtr)
    requires h in st.next && h in st.prev && h in st.owners
    reads h
  {
    h.itsNext == st.next[h] && h.itsPrev == st.prev[h] && h.itsPtr == st.owners[h]
  }

  lemma MadeFields(st: State, x: LinkedPtr, p: nat, h: LinkedPtr)
    requires Good(st) && x !in st.rings && h in Made(st, x, p).rings
    ensures h == x || (h in st.rings && h in st.next && h in st.prev && h in st.owners)
    ensures var n := Made(st, x, p);
      && h in n.next && n.next[h] == (if h == x then x else st.next[h])
      && h in n.prev && n.prev[h] == (if h == x then x else st.prev[h])
      && h in n.owners && n.owners[h] == (if h == x then p else st.owners[h])
  {
    hide Good;
    SameKeys(st);
  }

  lemma AcquiredFields(st: State, x: LinkedPtr, r: LinkedPtr, h: LinkedPtr)
    requires Good(st) && r in st.rings && x !in st.rings && h in Acquired(st, x, r).rings
    ensures r in st.next && r in st.owners && (h == x || (h in st.rings && h in st.next && h in st.prev && h in st.owners))
    ensures var n := Acquired(st, x, r);
      && h in n.next && n.next[h] == (if h == r then x else if h == x then st.next[r] else st.next[h])
      && h in n.prev && n.prev[h] == (if h == x then r else if h == st.next[r] then x else st.prev[h])
      && h in n.owners && n.owners[h] == (if h == x then st.owners[r] else st.owners[h])
  {
    hide Good, Partition, Linked, Ledger, Regroup, With;
    AcquiredGood(st, x, r);
    SameKeys(st);
    SameKeys(Acquired(st, x, r));
  }

  lemma DeletedOnRelease(st: State, x: LinkedPtr)
    requires Good(st) && x in st.rings
    ensures x in st.owners
    ensures Released(st, x).deleted
         == if |st.rings[x]| == 1 && st.owners[x] != 0 then st.deleted + [st.owners[x]] else st.deleted
  {
  }

  lemma ReleasedFields(st: State, x: LinkedPtr, h: LinkedPtr)
    requires Good(st) && x in st.rings && h in Released(st, x).rings
    ensures x in st.next && x in st.prev && h in st.next && h in st.prev && h in st.owners && h != x && h in st.rings
    ensures var n := Released(st, x);
      && h in n.next && n.next[h] == (if h == st.prev[x] then st.next[x] else st.next[h])
      && h in n.prev && n.prev[h] == (if h == st.next[x] then st.prev[x] else st.prev[h])
      && h in n.owners && n.owners[h] == st.owners[h]
  {
    hide Good, Partition, Linked, Ledger, Regroup, Without;
    ReleasedGood(st, x);
    NextInRing(st, x);
    SameKeys(st);
    SameKeys(Released(st, x));
  }

  /** All handles alive, and the log of `delete`. */
  class Pool {
    ghost var st: State
    var deleted: seq<nat>

    ghost predicate Valid()
      reads this, st.rings.Keys
    {
      Good(st) && deleted == st.deleted && forall h :: h in st.rings ==> Mirrored(st, h)
    }

    constructor ()
      ensures Valid() && st == EMPTY
    {
      st, deleted := EMPTY, [];
    }
  }

  class LinkedPtr {
    var itsPtr: nat
    var itsPrev: LinkedPtr?
    var itsNext: LinkedPtr?

    /** A first handle on an object, or on null. */
    constructor (p: nat, pool: Pool)
      requires pool.Valid()
      requires p != 0 ==> p !in pool.deleted && p !in pool.st.owners.Values
      modifies pool
      ensures pool.Valid() && fresh(this) && pool.st == Made(old(pool.st), this, p)
    {
      hide Good, Made;
      itsPtr := p;
      itsPrev := this;
      itsNext := this;
      new;
      ghost var st := pool.st;
      ghost var n := Made(st, this, p);
      SameKeys(st);
      MadeGood(st, this, p);
      SameKeys(n);
      forall h | h in n.rings
        ensures Mirrored(n, h)
      {
        MadeFields(st, this, p, h);
        assert h != this ==> Mirrored(st, h);
      }
      pool.st := n;
    }

    /** The copy constructor. */
    constructor Copy(r: LinkedPtr, pool: Pool)
      requires pool.Valid() && r in pool.st.rings
      modifies pool, pool.st.rings.Keys
      ensures pool.Valid() && fresh(this) && pool.st == Acquired(old(pool.st), this, r)
    {
      hide Good, Partition, Linked, Ledger, Acquired;
      new;
      Acquire(r, pool);
    }

    /** `unique`. */
    method Unique(pool: Pool) returns (r: bool)
      requires pool.Valid() && this in pool.st.rings
      ensures r == (|pool.st.rings[this]| == 1)
    {
      NextInRing(pool.st, this);
      r := if itsPrev != null then itsPrev == this else true;
    }

    /** The link updates of `acquire`. */
    method LinkBehind(r: LinkedPtr)
      requires r != this && r.itsNext != null && r.itsNext != this
      modifies this, r`itsNext, r.itsNext`itsPrev
      ensures itsPtr == r.itsPtr && itsNext == old(r.itsNext) && itsPrev == r
      ensures r.itsNext == this && old(r.itsNext).itsPrev == this
    {
      itsPtr := r.itsPtr;
      itsNext := r.itsNext;
      itsNext.itsPrev := this;
      itsPrev := r;
      r.itsNext := this;
    }

    method Acquire(r: LinkedPtr, pool: Pool)
      requires pool.Valid() && r in pool.st.rings && this !in pool.st.rings
      modifies this, pool, pool.st.rings.Keys
      ensures pool.Valid() && pool.st == Acquired(old(pool.st), this, r)
    {
      hide Good, Acquired;
      ghost var st := pool.st;
      ghost var n := Acquired(st, this, r);
      SameKeys(st);
      NextInRing(st, r);
      AcquiredGood(st, this, r);
      SameKeys(n);
      assert Mirrored(st, r);
      LinkBehind(r);
      forall h | h in n.rings
        ensures Mirrored(n, h)
      {
        AcquiredFields(st, this, r, h);
        assert h != this ==> old(Mirrored(st, h));
      }
      pool.st := n;
    }

    /** The field updates of `release`. */
    method Unlink(alone: bool)
      requires itsPrev != null && itsNext != null
      requires alone == (itsPrev == this) == (itsNext == this)
      modifies this, itsPrev`itsNext, itsNext`itsPrev
      ensures itsPtr == 0
      ensures !alone ==> itsPrev == null && itsNext == null
      ensures !alone ==> old(itsPrev).itsNext == old(itsNext) && old(itsNext).itsPrev == old(itsPrev)
    {
      if !alone {
        itsPrev.itsNext := itsNext;
        itsNext.itsPrev := itsPrev;
        itsPrev, itsNext := null, null;
      }
      itsPtr := 0;
    }

    /** `release`, also the destructor: the handle leaves the live ones. */
    method Release(pool: Pool)
      requires pool.Valid() && this in pool.st.rings
      modifies this, pool, pool.st.rings.Keys
      ensures pool.Valid() && pool.st == Released(old(pool.st), this)
      ensures itsPtr == 0
    {
      hide Good, Released;
      ghost var st := pool.st;
      ghost var n := Released(st, this);
      SameKeys(st);
      NextInRing(st, this);
      ReleasedGood(st, this);
      SameKeys(n);
      DeletedOnRelease(st, this);
      assert Mirrored(st, this);
      assert itsPrev in st.rings && itsNext in st.rings;
      var alone := Unique(pool);
      var p := itsPtr;
      Unlink(alone);
      forall h | h in n.rings
        ensures Mirrored(n, h)
      {
        ReleasedFields(st, this, h);
        assert old(Mirrored(st, h));
      }
      var log := if alone && p != 0 then pool.deleted + [p] else pool.deleted;
      pool.st, pool.deleted := n, log;
    }

    /** `operator=`. */
    method Assign(r: LinkedPtr, pool: Pool)
      requires pool.Valid() && this in pool.st.rings && r in pool.st.rings
      modifies this, pool, pool.st.rings.Keys
      ensures pool.Valid() && pool.st == Step(old(pool.st), Op.Assign(this, r))
    {
      if this != r {
        ReleasedGood(pool.st, this);
        Release(pool);
        Acquire(r, pool);
      }
    }
  }
}
