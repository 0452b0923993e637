/** The disk cache of base/diskcache.cc: lock states, stream accounting and eviction.
    The file system's answers (sizes, whether a file opens or deletes) and the clock
    are parameters. */
module DiskCache {

  datatype LockState = LS_UNLOCKED | LS_LOCKED | LS_UNLOCKING

  datatype Entry = Entry(lockState: LockState, accessors: nat, size: nat, streams: nat, lastModified: int)

  /** One node of the `std::map`; the map is the sequence of its nodes in key order. */
  datatype Slot = Slot(id: string, entry: Entry)

  /** An outstanding stream adapter. */
  datatype Stream = Stream(id: string, index: nat, writing: bool)

  // ---------------------------------------------------------------------------
  // Sums and counts
  // ---------------------------------------------------------------------------

  ghost function SumSize(s: seq<Slot>): nat
  {
    if s == [] then 0 else SumSize(s[..|s| - 1]) + s[|s| - 1].entry.size
  }

  ghost function SumAccessors(s: seq<Slot>): nat
  {
    if s == [] then 0 else SumAccessors(s[..|s| - 1]) + s[|s| - 1].entry.accessors
  }

  ghost function Count(open: seq<Stream>, id: string): nat
  {
    if open == [] then 0 else Count(open[..|open| - 1], id) + if open[|open| - 1].id == id then 1 else 0
  }

  lemma {:induction false} SumAppend(a: seq<Slot>, b: seq<Slot>)
    ensures SumSize(a + b) == SumSize(a) + SumSize(b)
    ensures SumAccessors(a + b) == SumAccessors(a) + SumAccessors(b)
  {
    if b == [] {
      assert a + b == a;
    } else {
      assert (a + b)[..|a + b| - 1] == a + b[..|b| - 1];
      SumAppend(a, b[..|b| - 1]);
    }
  }

  lemma SumOne(x: Slot)
    ensures SumSize([x]) == x.entry.size && SumAccessors([x]) == x.entry.accessors
  {
    assert [x][..0] == [];
  }

  lemma SumSplit(s: seq<Slot>, i: nat)
    requires i < |s|
    ensures SumSize(s) == SumSize(s[..i]) + s[i].entry.size + SumSize(s[i + 1..])
    ensures SumAccessors(s) == SumAccessors(s[..i]) + s[i].entry.accessors + SumAccessors(s[i + 1..])
  {
    assert s == s[..i] + [s[i]] + s[i + 1..];
    SumAppend(s[..i] + [s[i]], s[i + 1..]);
    SumAppend(s[..i], [s[i]]);
    SumOne(s[i]);
  }

  lemma SumUpdate(s: seq<Slot>, i: nat, x: Slot)
    requires i < |s|
    ensures SumSize(s[i := x]) + s[i].entry.size == SumSize(s) + x.entry.size
    ensures SumAccessors(s[i := x]) + s[i].entry.accessors == SumAccessors(s) + x.entry.accessors
  {
    SumSplit(s, i);
    var t := s[i := x];
    SumSplit(t, i);
    assert t[..i] == s[..i] && t[i + 1..] == s[i + 1..];
  }

  lemma {:induction false} CountAppend(a: seq<Stream>, b: seq<Stream>, id: string)
    ensures Count(a + b, id) == Count(a, id) + Count(b, id)
  {
    if b == [] {
      assert a + b == a;
    } else {
      assert (a + b)[..|a + b| - 1] == a + b[..|b| - 1];
      CountAppend(a, b[..|b| - 1], id);
    }
  }

  lemma CountOne(x: Stream, id: string)
    ensures Count([x], id) == if x.id == id then 1 else 0
  {
    assert [x][..0] == [];
  }

  lemma CountSplit(open: seq<Stream>, k: nat, id: string)
    requires k < |open|
    ensures Count(open, id) == Count(open[..k] + open[k + 1..], id) + if open[k].id == id then 1 else 0
  {
    assert open == open[..k] + [open[k]] + open[k + 1..];
    CountAppend(open[..k] + [open[k]], open[k + 1..], id);
    CountAppend(open[..k], [open[k]], id);
    CountAppend(open[..k], open[k + 1..], id);
    CountOne(open[k], id);
  }

  lemma {:induction false} CountPositive(open: seq<Stream>, k: nat)
    requires k < |open|
    ensures Count(open, open[k].id) > 0
  {
    CountSplit(open, k, open[k].id);
  }

  // ---------------------------------------------------------------------------
  // The invariant
  // ---------------------------------------------------------------------------

  function Find(s: seq<Slot>, id: string): (i: nat)
    ensures i <= |s| && (i < |s| ==> s[i].id == id)
    ensures forall k :: 0 <= k < i ==> s[k].id != id
  {
    if s == [] then 0
    else if s[0].id == id then 0
    else 1 + Find(s[1..], id)
  }

  predicate Has(s: seq<Slot>, id: string) { Find(s, id) < |s| }

  ghost predicate DistinctIds(s: seq<Slot>)
  {
    forall i, j :: 0 <= i < j < |s| ==> s[i].id != s[j].id
  }

  /** An entry agrees with the streams open on it: their number, and their kind. While
      unlocked all are readers, otherwise all are writers. */
  ghost predicate Agrees(x: Slot, open: seq<Stream>)
  {
    && x.entry.accessors == Count(open, x.id)
    && (x.entry.lockState == LS_UNLOCKING ==> x.entry.accessors > 0)
    && forall k :: 0 <= k < |open| && open[k].id == x.id ==> open[k].writing == (x.entry.lockState != LS_UNLOCKED)
  }

  ghost predicate Consistent(s: seq<Slot>, open: seq<Stream>)
  {
    && DistinctIds(s)
    && (forall i :: 0 <= i < |s| ==> Agrees(s[i], open))
    && (forall k :: 0 <= k < |open| ==> Has(s, open[k].id))
  }

  predicate Deletable(e: Entry) { e.lockState == LS_UNLOCKED && e.accessors == 0 }

  lemma FindAt(s: seq<Slot>, i: nat)
    requires DistinctIds(s) && i < |s|
    ensures Find(s, s[i].id) == i
  {
    var k := Find(s, s[i].id);
    assert k <= i;
  }

  function Remove(s: seq<Slot>, i: nat): seq<Slot>
    requires i < |s|
  {
    s[..i] + s[i + 1..]
  }

  /** Removing an entry that is not in use. */
  lemma RemoveConsistent(s: seq<Slot>, open: seq<Stream>, i: nat)
    requires Consistent(s, open) && i < |s| && s[i].entry.accessors == 0
    ensures Consistent(Remove(s, i), open)
  {
    var t := Remove(s, i);
    forall k | 0 <= k < |open|
      ensures Has(t, open[k].id)
    {
      var j := Find(s, open[k].id);
      assert Agrees(s[i], open);
      if j == i { CountPositive(open, k); }
      var m := if j < i then j else j - 1;
      assert t[m] == s[j];
      HasAt(t, m);
    }
  }

  lemma HasAt(s: seq<Slot>, i: nat)
    requires i < |s|
    ensures Has(s, s[i].id)
  {
  }

  /** Changing one entry without touching its streams. */
  lemma UpdateConsistent(s: seq<Slot>, open: seq<Stream>, i: nat, x: Slot)
    requires Consistent(s, open) && i < |s| && x.id == s[i].id && Agrees(x, open)
    ensures Consistent(s[i := x], open)
  {
    var t := s[i := x];
    forall k | 0 <= k < |open|
      ensures Has(t, open[k].id)
    {
      HasAt(t, Find(s, open[k].id));
    }
  }

  lemma AgreesAfterOpen(y: Slot, open: seq<Stream>, st: Stream)
    requires y.id != st.id || st.writing == (y.entry.lockState != LS_UNLOCKED)
    requires Agrees(y, open)
    ensures Agrees(if y.id == st.id then y.(entry := y.entry.(accessors := y.entry.accessors + 1)) else y, open + [st])
  {
    hide Count;
    CountAppend(open, [st], y.id);
    CountOne(st, y.id);
  }

  /** A stream joins the entry it belongs to. */
  lemma OpenConsistent(s: seq<Slot>, open: seq<Stream>, i: nat, x: Slot, st: Stream)
    requires Consistent(s, open) && i < |s|
    requires x.id == s[i].id == st.id && x.entry.lockState == s[i].entry.lockState
    requires x.entry.accessors == s[i].entry.accessors + 1
    requires st.writing == (x.entry.lockState != LS_UNLOCKED)
    ensures Consistent(s[i := x], open + [st])
  {
    hide Count, Find;
    var t, o := s[i := x], open + [st];
    forall j | 0 <= j < |t|
      ensures Agrees(t[j], o)
    {
      AgreesAfterOpen(s[j], open, st);
    }
    forall k | 0 <= k < |o|
      ensures Has(t, o[k].id)
    {
      if k < |open| { StillHas(s, i, x, open[k].id); } else { HasAt(t, i); }
    }
  }

  lemma StillHas(s: seq<Slot>, i: nat, x: Slot, id: string)
    requires i < |s| && x.id == s[i].id && Has(s, id)
    ensures Has(s[i := x], id)
  {
    HasAt(s[i := x], Find(s, id));
  }

  lemma AgreesAfterClose(y: Slot, open: seq<Stream>, k: nat, unlock: bool)
    requires k < |open| && Agrees(y, open) && y.entry.accessors > (if y.id == open[k].id then 0 else -1)
    requires unlock == (y.id == open[k].id && y.entry.lockState == LS_UNLOCKING && y.entry.accessors == 1)
    ensures var e := if y.id == open[k].id then y.entry.(accessors := y.entry.accessors - 1) else y.entry;
            Agrees(Slot(y.id, if unlock then e.(lockState := LS_UNLOCKED) else e), open[..k] + open[k + 1..])
  {
    hide Count;
    CountSplit(open, k, y.id);
    NoneOpen(open[..k] + open[k + 1..], y.id);
  }

  /** A stream leaves; the last one out may unlock the entry. */
  lemma CloseConsistent(s: seq<Slot>, open: seq<Stream>, k: nat, i: nat, x: Slot)
    requires Consistent(s, open) && k < |open| && i == Find(s, open[k].id)
    requires x.id == s[i].id && x.entry.accessors + 1 == s[i].entry.accessors
    requires x.entry.lockState == (if s[i].entry.lockState == LS_UNLOCKING && x.entry.accessors == 0
                                   then LS_UNLOCKED else s[i].entry.lockState)
    ensures Consistent(s[i := x], open[..k] + open[k + 1..])
  {
    var t, o := s[i := x], open[..k] + open[k + 1..];
    assert s[i].id == open[k].id && Has(s, open[k].id);
    hide Count, Find, Has;
    forall j | 0 <= j < |t|
      ensures Agrees(t[j], o)
    {
      AgreesAfterClose(s[j], open, k, j == i && s[i].entry.lockState == LS_UNLOCKING && s[i].entry.accessors == 1);
    }
    forall m | 0 <= m < |o|
      ensures Has(t, o[m].id)
    {
      var n := if m < k then m else m + 1;
      assert o[m] == open[n];
      StillHas(s, i, x, open[n].id);
    }
  }

  lemma NoneOpen(open: seq<Stream>, id: string)
    ensures Count(open, id) == 0 ==> forall k :: 0 <= k < |open| ==> open[k].id != id
  {
    forall k | 0 <= k < |open| && open[k].id == id
      ensures Count(open, id) > 0
    {
      CountPositive(open, k);
    }
  }

  lemma {:induction false} CountAbsent(open: seq<Stream>, id: string)
    requires forall k :: 0 <= k < |open| ==> open[k].id != id
    ensures Count(open, id) == 0
  {
    if open != [] { CountAbsent(open[..|open| - 1], id); }
  }

  /** A new, unlocked entry under a fresh id. */
  lemma InsertConsistent(s: seq<Slot>, open: seq<Stream>, i: nat, x: Slot)
    requires Consistent(s, open) && i <= |s| && !Has(s, x.id)
    requires x.entry.lockState == LS_UNLOCKED && x.entry.accessors == 0
    ensures Consistent(s[..i] + [x] + s[i..], open)
  {
    CountAbsent(open, x.id);
    InsertDistinct(s, i, x);
    NoneOpen(open, x.id);
    assert Agrees(x, open);
    hide Count, Find, Has, Agrees, DistinctIds;
    var t := s[..i] + [x] + s[i..];
    forall j | 0 <= j < |t|
      ensures Agrees(t[j], open)
    {
      InsertedAt(s, i, x, j);
    }
    forall k | 0 <= k < |open|
      ensures Has(t, open[k].id)
    {
      InsertHas(s, i, x, open[k].id);
    }
  }

  lemma InsertedAt(s: seq<Slot>, i: nat, x: Slot, j: nat)
    requires i <= |s| && j <= |s|
    ensures (s[..i] + [x] + s[i..])[j] == if j < i then s[j] else if j == i then x else s[j - 1]
  {
  }

  lemma InsertDistinct(s: seq<Slot>, i: nat, x: Slot)
    requires DistinctIds(s) && i <= |s| && !Has(s, x.id)
    ensures DistinctIds(s[..i] + [x] + s[i..])
  {
    assert forall j :: 0 <= j < |s| ==> s[j].id != x.id;
  }

  lemma InsertHas(s: seq<Slot>, i: nat, x: Slot, id: string)
    requires i <= |s| && Has(s, id)
    ensures Has(s[..i] + [x] + s[i..], id)
  {
    var j := Find(s, id);
    var t := s[..i] + [x] + s[i..];
    var m := if j < i then j else j + 1;
    assert t[m] == s[j];
    HasAt(t, m);
  }

  lemma InsertSums(s: seq<Slot>, i: nat, x: Slot)
    requires i <= |s|
    ensures SumSize(s[..i] + [x] + s[i..]) == SumSize(s) + x.entry.size
    ensures SumAccessors(s[..i] + [x] + s[i..]) == SumAccessors(s) + x.entry.accessors
  {
    hide SumSize, SumAccessors;
    SumAppend(s[..i] + [x], s[i..]);
    SumAppend(s[..i], [x]);
    SumAppend(s[..i], s[i..]);
    SumOne(x);
    assert s == s[..i] + s[i..];
  }

  // ---------------------------------------------------------------------------
  // Eviction
  // ---------------------------------------------------------------------------

  /** What the victim scan finds. `PastTheEnd` is undefined behaviour: `oldest` is stepped
      past the candidate before the loop, which then compares against the map's end. */
  datatype Choice = AllLocked | PastTheEnd | Victim(at: nat)

  /** What a call comes to. `Undefined`: the code goes through an invalid pointer. */
  datatype Verdict = Granted | Refused | Undefined

  function FirstDeletable(s: seq<Slot>): (c: nat)
    ensures c <= |s| && (c < |s| ==> Deletable(s[c].entry))
    ensures forall j :: 0 <= j < c ==> !Deletable(s[j].entry)
  {
    if s == [] || Deletable(s[0].entry) then 0 else 1 + FirstDeletable(s[1..])
  }

  /** The scan from `it` on, with the oldest entry so far: ties do not move it. */
  function Oldest(s: seq<Slot>, it: nat, oldest: nat): (v: nat)
    requires it <= |s| && oldest < |s|
    ensures v < |s| && (v == oldest || it <= v)
    ensures s[v].entry.lastModified <= s[oldest].entry.lastModified
    ensures forall j :: it <= j < |s| ==> s[v].entry.lastModified <= s[j].entry.lastModified
    decreases |s| - it
  {
    if it == |s| then oldest
    else Oldest(s, it + 1, if s[it].entry.lastModified < s[oldest].entry.lastModified then it else oldest)
  }

  function Choose(s: seq<Slot>): (r: Choice)
    ensures r.Victim? ==> r.at < |s|
  {
    var c := FirstDeletable(s);
    if c == |s| then AllLocked
    else if c + 1 == |s| then PastTheEnd
    else Victim(Oldest(s, c, c + 1))
  }

  /** The scan gives up exactly when nothing is deletable, runs past the end exactly when
      the last entry is the only deletable one, and otherwise picks the least recently
      modified entry from the first deletable one on, locked entries included. */
  lemma ChooseMeans(s: seq<Slot>)
    ensures Choose(s) == AllLocked <==> forall j :: 0 <= j < |s| ==> !Deletable(s[j].entry)
    ensures Choose(s) == PastTheEnd <==>
              |s| > 0 && Deletable(s[|s| - 1].entry) && forall j :: 0 <= j < |s| - 1 ==> !Deletable(s[j].entry)
    ensures Choose(s).Victim? ==>
              exists c :: 0 <= c < |s| - 1 && Deletable(s[c].entry) && c <= Choose(s).at < |s|
                && (forall j :: 0 <= j < c ==> !Deletable(s[j].entry))
                && forall j :: c <= j < |s| ==> s[Choose(s).at].entry.lastModified <= s[j].entry.lastModified
  {
    var c := FirstDeletable(s);
    if Choose(s).Victim? {
      assert Deletable(s[c].entry);
    }
  }

  datatype Eviction = Eviction(verdict: Verdict, left: seq<Slot>, total: nat)

  /** `CheckLimit` on values: what it comes to, the entries left and their booked size. */
  ghost function Evict(s: seq<Slot>, total: nat, max: nat, deleted: string -> bool): (r: Eviction)
    requires SumSize(s) <= total
    decreases |s|
  {
    if total <= max then Eviction(Granted, s, total)
    else
      match Choose(s)
      case AllLocked => Eviction(Refused, s, total)
      case PastTheEnd => Eviction(Undefined, s, total)
      case Victim(at) =>
        if !Deletable(s[at].entry) then Eviction(Refused, s, total)
        else
          RemoveSums(s, at);
          var rest, left := Remove(s, at), total - s[at].entry.size;
          if deleted(s[at].id) then Evict(rest, left, max, deleted) else Eviction(Refused, rest, left)
  }

  lemma RemoveSums(s: seq<Slot>, i: nat)
    requires i < |s|
    ensures SumSize(s) == SumSize(Remove(s, i)) + s[i].entry.size
    ensures SumAccessors(s) == SumAccessors(Remove(s, i)) + s[i].entry.accessors
  {
    hide SumSize, SumAccessors;
    SumSplit(s, i);
    SumAppend(s[..i], s[i + 1..]);
  }

  /** One round of the eviction loop goes through: its victim is deletable. */
  predicate Evicts(s: seq<Slot>, total: nat, max: nat)
  {
    total > max && Choose(s).Victim? && Deletable(s[Choose(s).at].entry)
  }

  /** Nothing is deletable, or the entry that would go next is not. */
  predicate CannotGoOn(s: seq<Slot>)
  {
    || (forall i :: 0 <= i < |s| ==> !Deletable(s[i].entry))
    || (Choose(s).Victim? && !Deletable(s[Choose(s).at].entry))
  }

  lemma CannotGoOnIff(s: seq<Slot>, total: nat, max: nat)
    requires total > max
    ensures CannotGoOn(s) <==> !Evicts(s, total, max) && Choose(s) != PastTheEnd
  {
    ChooseMeans(s);
    hide Choose;
  }

  lemma EvictStep(s: seq<Slot>, total: nat, max: nat, deleted: string -> bool)
    requires SumSize(s) <= total
    ensures !Evicts(s, total, max) ==>
      Evict(s, total, max, deleted)
      == Eviction(if total <= max then Granted else if Choose(s) == PastTheEnd then Undefined else Refused, s, total)
    ensures Evicts(s, total, max) ==>
      var at := Choose(s).at;
      && at < |s| && Deletable(s[at].entry) && s[at].entry.size <= total
      && SumSize(Remove(s, at)) <= total - s[at].entry.size
      && Evict(s, total, max, deleted)
         == if deleted(s[at].id) then Evict(Remove(s, at), total - s[at].entry.size, max, deleted)
            else Eviction(Refused, Remove(s, at), total - s[at].entry.size)
    ensures Evicts(s, total, max) ==> total > max
  {
    hide SumSize, SumAccessors, FirstDeletable, Oldest, Remove;
    if Evicts(s, total, max) {
      RemoveSums(s, Choose(s).at);
    }
  }

  /** Success means within the limit; running past the end means that the entries left
      are over it and only the last one is deletable. Both ways, if files can be deleted. */
  lemma {:induction false} EvictVerdict(s: seq<Slot>, total: nat, max: nat, deleted: string -> bool)
    requires SumSize(s) <= total
    ensures var r := Evict(s, total, max, deleted);
      && (r.verdict == Granted ==> r.total <= max)
      && (r.verdict == Undefined ==> r.total > max && Choose(r.left) == PastTheEnd)
      && (AllGo(s, deleted) ==>
            && (r.verdict == Granted <==> r.total <= max)
            && (r.verdict == Undefined <==> r.total > max && Choose(r.left) == PastTheEnd)
            && (r.verdict == Refused <==> r.total > max && CannotGoOn(r.left)))
    decreases |s|
  {
    hide SumSize, SumAccessors, Evict, Choose, Remove, AllGo, Deletable, CannotGoOn;
    EvictStep(s, total, max, deleted);
    if total > max {
      CannotGoOnIff(s, total, max);
    }
    if Evicts(s, total, max) {
      var at := Choose(s).at;
      RemoveShrinks(s, at);
      AllOthersGo(s, at, deleted);
      EvictVerdict(Remove(s, at), total - s[at].entry.size, max, deleted);
    }
  }

  /** The file system deletes whatever it is asked to. */
  ghost predicate AllGo(s: seq<Slot>, deleted: string -> bool)
  {
    forall i :: 0 <= i < |s| ==> deleted(s[i].id)
  }

  lemma AllOthersGo(s: seq<Slot>, i: nat, deleted: string -> bool)
    requires i < |s|
    ensures AllGo(s, deleted) ==> deleted(s[i].id) && AllGo(Remove(s, i), deleted)
  {
  }

  lemma RemoveShrinks(s: seq<Slot>, i: nat)
    requires i < |s|
    ensures |Remove(s, i)| == |s| - 1
  {
  }

  /** Only entries of the cache are left, all those in use or locked among them, and the
      booked size goes down by what went. */
  lemma {:induction false} EvictLeaves(s: seq<Slot>, total: nat, max: nat, deleted: string -> bool)
    requires SumSize(s) <= total
    ensures var r := Evict(s, total, max, deleted);
      && (forall x :: x in r.left ==> x in s)
      && (forall x :: x in s && !Deletable(x.entry) ==> x in r.left)
      && r.total - SumSize(r.left) == total - SumSize(s)
    decreases |s|
  {
    hide SumSize, SumAccessors, Evict, Choose, Remove, Deletable;
    EvictStep(s, total, max, deleted);
    if Evicts(s, total, max) {
      var at := Choose(s).at;
      RemoveShrinks(s, at);
      RemoveMembers(s, at);
      RemoveSums(s, at);
      EvictLeaves(Remove(s, at), total - s[at].entry.size, max, deleted);
    }
  }

  /** The least recently modified go first: whatever went is no younger than any entry
      that is left and could have gone. */
  lemma {:induction false} EvictOldest(s: seq<Slot>, total: nat, max: nat, deleted: string -> bool, x: Slot, y: Slot)
    requires SumSize(s) <= total
    requires var r := Evict(s, total, max, deleted); x in s && x !in r.left && y in r.left && Deletable(y.entry)
    ensures x.entry.lastModified <= y.entry.lastModified
    decreases |s|
  {
    hide SumSize, SumAccessors, Evict, Remove;
    EvictStep(s, total, max, deleted);
    var at := Choose(s).at;
    RemoveShrinks(s, at);
    RemoveMembers(s, at);
    var rest, left := Remove(s, at), total - s[at].entry.size;
    EvictLeaves(s, total, max, deleted);
    if x == s[at] {
      var j :| 0 <= j < |s| && s[j] == y;
      assert FirstDeletable(s) <= j;
    } else {
      assert x in rest;
      assert deleted(s[at].id);
      EvictOldest(rest, left, max, deleted, x, y);
    }
  }

  lemma RemoveMembers(s: seq<Slot>, i: nat)
    requires i < |s|
    ensures forall x :: x in Remove(s, i) ==> x in s
    ensures forall x :: x in s && x != s[i] ==> x in Remove(s, i)
  {
    var t := Remove(s, i);
    forall x | x in s && x != s[i]
      ensures x in t
    {
      var j :| 0 <= j < |s| && s[j] == x;
      assert t[if j < i then j else j - 1] == x;
    }
  }

  lemma RemoveUnused(s: seq<Slot>, open: seq<Stream>, i: nat)
    requires Consistent(s, open) && i < |s| && Deletable(s[i].entry)
    ensures Consistent(Remove(s, i), open) && SumAccessors(Remove(s, i)) == SumAccessors(s)
    ensures |Remove(s, i)| < |s|
  {
    hide SumSize, SumAccessors, Consistent;
    RemoveSums(s, i);
    RemoveConsistent(s, open, i);
  }

  lemma {:induction false} EvictConsistent(s: seq<Slot>, open: seq<Stream>, total: nat, max: nat, deleted: string -> bool)
    requires Consistent(s, open) && SumSize(s) <= total
    ensures var r := Evict(s, total, max, deleted);
      Consistent(r.left, open) && SumAccessors(r.left) == SumAccessors(s)
    decreases |s|
  {
    hide SumSize, SumAccessors, Consistent, Evict, Choose, Remove, Deletable;
    EvictStep(s, total, max, deleted);
    if Evicts(s, total, max) {
      var at := Choose(s).at;
      RemoveUnused(s, open, at);
      EvictConsistent(Remove(s, at), open, total - s[at].entry.size, max, deleted);
    }
  }

  predicate CanLock(e: Entry)
  {
    e.lockState == LS_UNLOCKING || (e.lockState == LS_UNLOCKED && e.accessors == 0)
  }

  lemma NoStreamsUnlocked(x: Slot, open: seq<Stream>)
    requires Agrees(x, open) && CanLock(x.entry)
    ensures Agrees(x.(entry := x.entry.(lockState := LS_LOCKED)), open)
  {
    hide Count;
    NoneOpen(open, x.id);
  }

  lemma {:induction false} AccessorsZero(s: seq<Slot>, i: nat)
    requires i < |s| && SumAccessors(s) == 0
    ensures s[i].entry.accessors == 0
  {
    SumSplit(s, i);
  }

  lemma NoAccessorsNoStreams(s: seq<Slot>, open: seq<Stream>)
    requires Consistent(s, open) && SumAccessors(s) == 0
    ensures open == []
  {
    hide Count, SumAccessors;
    if open != [] {
      assert Has(s, open[0].id);
      var i := Find(s, open[0].id);
      AccessorsZero(s, i);
      assert Agrees(s[i], open);
      CountPositive(open, 0);
    }
  }

  // ---------------------------------------------------------------------------
  // The operations on values
  // ---------------------------------------------------------------------------

  datatype Cache = Cache(slots: seq<Slot>, open: seq<Stream>, totalSize: nat, totalAccessors: nat)

  const EMPTY := Cache([], [], 0, 0)

  /** Totals equal the sums over the entries; entries agree with the open streams; no
      open stream is without an entry. */
  ghost predicate Good(c: Cache)
  {
    && Consistent(c.slots, c.open)
    && c.totalSize == SumSize(c.slots) && c.totalAccessors == SumAccessors(c.slots)
  }

  /** One call, with what the file system and the clock answer. `at` is where the key
      order puts a new entry; `Release` is the destructor of the k-th open stream. */
  datatype Op =
    | Lock(id: string, at: nat, now: int, deleted: string -> bool)
    | Write(id: string, index: nat, fileSize: nat, opens: bool)
    | Unlock(id: string, now: int, deleted: string -> bool)
    | Read(id: string, index: nat, opens: bool)
    | Delete(id: string, gone: bool)
    | Release(k: nat, fileSize: nat, now: int, deleted: string -> bool)
    | Purge(purged: bool)

  predicate Allowed(c: Cache, op: Op)
  {
    (op.Lock? ==> op.at <= |c.slots|) && (op.Release? ==> op.k < |c.open|)
  }

  function Fresh(id: string, now: int): Slot { Slot(id, Entry(LS_UNLOCKED, 0, 0, 0, now)) }

  /** `GetOrCreateEntry(id, true)`. */
  function Ensured(s: seq<Slot>, id: string, at: nat, now: int): seq<Slot>
    requires at <= |s|
  {
    if Has(s, id) then s else s[..at] + [Fresh(id, now)] + s[at..]
  }

  function EntryOf(s: seq<Slot>, id: string): Entry
    requires Has(s, id)
  {
    s[Find(s, id)].entry
  }

  function Put(s: seq<Slot>, id: string, e: Entry): seq<Slot>
    requires Has(s, id)
  {
    s[Find(s, id) := Slot(id, e)]
  }

  ghost function Limited(c: Cache, max: nat, deleted: string -> bool): (Verdict, Cache)
    requires SumSize(c.slots) <= c.totalSize
  {
    var r := Evict(c.slots, c.totalSize, max, deleted);
    (r.verdict, c.(slots := r.left, totalSize := r.total))
  }

  /** `LockResource`. If the limit check evicts the very entry being locked, the code goes
      on to write through a dangling pointer. */
  ghost function AfterLock(max: nat, c: Cache, op: Op): (Verdict, Cache)
    requires op.Lock? && Good(c) && Allowed(c, op)
  {
    var d := c.(slots := Ensured(c.slots, op.id, op.at, op.now));
    EnsuredGood(c, op.id, op.at, op.now);
    var e := EntryOf(d.slots, op.id);
    if !CanLock(e) then (Refused, d)
    else
      var (verdict, f) := Limited(d, max, op.deleted);
      if verdict != Granted then (verdict, f)
      else if !Has(f.slots, op.id) then (Undefined, f)
      else (Granted, f.(slots := Put(f.slots, op.id, e.(lockState := LS_LOCKED))))
  }

  /** `UnlockResource`: at once, or when the last writer closes. */
  ghost function AfterUnlock(max: nat, c: Cache, op: Op): (Verdict, Cache)
    requires op.Unlock? && Good(c)
  {
    if !Has(c.slots, op.id) then (Undefined, c)
    else
      var e := EntryOf(c.slots, op.id);
      if e.lockState != LS_LOCKED then (Refused, c)
      else if e.accessors > 0 then (Granted, c.(slots := Put(c.slots, op.id, e.(lockState := LS_UNLOCKING))))
      else
        var d := c.(slots := Put(c.slots, op.id, e.(lockState := LS_UNLOCKED, lastModified := op.now)));
        PutSums(c.slots, op.id, e.(lockState := LS_UNLOCKED, lastModified := op.now));
        var (verdict, f) := Limited(d, max, op.deleted);
        (if verdict == Undefined then Undefined else Granted, f)
  }

  /** `WriteResource`: the old file's bytes are taken off the books. */
  ghost function AfterWrite(c: Cache, op: Op): (Verdict, Cache)
    requires op.Write? && Good(c)
  {
    if !Has(c.slots, op.id) then (Undefined, c)
    else
      var e := EntryOf(c.slots, op.id);
      if e.lockState != LS_LOCKED || !op.opens then (Refused, c)
      else
        var previous := if op.fileSize > e.size then e.size else op.fileSize;
        PutSums(c.slots, op.id, e);
        (Granted,
         Cache(Put(c.slots, op.id, e.(streams := if op.index + 1 > e.streams then op.index + 1 else e.streams,
                                      size := e.size - previous, accessors := e.accessors + 1)),
               c.open + [Stream(op.id, op.index, true)],
               c.totalSize - previous, c.totalAccessors + 1))
  }

  /** `ReadResource`. */
  function AfterRead(c: Cache, op: Op): (Verdict, Cache)
    requires op.Read?
  {
    if !Has(c.slots, op.id) then (Undefined, c)
    else
      var e := EntryOf(c.slots, op.id);
      if e.lockState != LS_UNLOCKED || op.index >= e.streams || !op.opens then (Refused, c)
      else
        (Granted, c.(slots := Put(c.slots, op.id, e.(accessors := e.accessors + 1)),
                     open := c.open + [Stream(op.id, op.index, false)],
                     totalAccessors := c.totalAccessors + 1))
  }

  /** `DeleteResource`: an entry in use, or locked, is never removed. */
  ghost function AfterDelete(c: Cache, op: Op): (Verdict, Cache)
    requires op.Delete? && Good(c)
  {
    if !Has(c.slots, op.id) then (Granted, c)
    else if !Deletable(EntryOf(c.slots, op.id)) then (Refused, c)
    else
      var i := Find(c.slots, op.id);
      RemoveSums(c.slots, i);
      (if op.gone then Granted else Refused,
       c.(slots := Remove(c.slots, i), totalSize := c.totalSize - c.slots[i].entry.size))
  }

  predicate LastWriter(c: Cache, k: nat)
    requires k < |c.open| && Has(c.slots, c.open[k].id)
  {
    var e := EntryOf(c.slots, c.open[k].id);
    e.lockState == LS_UNLOCKING && e.accessors == 1
  }

  /** The k-th stream leaves: a writer's bytes are booked, the last one unlocks. */
  function Closed(c: Cache, k: nat, fileSize: nat, now: int): Cache
    requires k < |c.open| && Has(c.slots, c.open[k].id)
    requires EntryOf(c.slots, c.open[k].id).accessors > 0 && c.totalAccessors > 0
  {
    var id := c.open[k].id;
    var e := EntryOf(c.slots, id);
    var more := if e.lockState != LS_UNLOCKED then fileSize else 0;
    var last := LastWriter(c, k);
    Cache(Put(c.slots, id, e.(accessors := e.accessors - 1, size := e.size + more,
                              lastModified := if last then now else e.lastModified,
                              lockState := if last then LS_UNLOCKED else e.lockState)),
          c.open[..k] + c.open[k + 1..], c.totalSize + more, c.totalAccessors - 1)
  }

  /** `ReleaseResource`. */
  ghost function AfterRelease(max: nat, c: Cache, op: Op): (Verdict, Cache)
    requires op.Release? && Good(c) && Allowed(c, op)
  {
    OpenHasEntry(c, op.k);
    ClosedGood(c, op.k, op.fileSize, op.now);
    var d := Closed(c, op.k, op.fileSize, op.now);
    if LastWriter(c, op.k) then
      var (verdict, f) := Limited(d, max, op.deleted);
      (if verdict == Undefined then Undefined else Granted, f)
    else (Granted, d)
  }

  /** `Purge` forgets the entries but not their total size. */
  function AfterPurge(c: Cache, op: Op): (Verdict, Cache)
    requires op.Purge?
  {
    if c.totalAccessors > 0 || !op.purged then (Refused, c) else (Granted, c.(slots := []))
  }

  ghost function Step(max: nat, c: Cache, op: Op): (Verdict, Cache)
    requires Good(c) && Allowed(c, op)
  {
    match op
    case Lock(_, _, _, _) => AfterLock(max, c, op)
    case Write(_, _, _, _) => AfterWrite(c, op)
    case Unlock(_, _, _) => AfterUnlock(max, c, op)
    case Read(_, _, _) => AfterRead(c, op)
    case Delete(_, _) => AfterDelete(c, op)
    case Release(_, _, _, _) => AfterRelease(max, c, op)
    case Purge(_) => AfterPurge(c, op)
  }

  lemma PutSums(s: seq<Slot>, id: string, e: Entry)
    requires Has(s, id)
    ensures SumSize(Put(s, id, e)) + EntryOf(s, id).size == SumSize(s) + e.size
    ensures SumAccessors(Put(s, id, e)) + EntryOf(s, id).accessors == SumAccessors(s) + e.accessors
    ensures EntryOf(s, id).size <= SumSize(s) && EntryOf(s, id).accessors <= SumAccessors(s)
  {
    hide SumSize, SumAccessors;
    var i := Find(s, id);
    SumUpdate(s, i, Slot(id, e));
    SumSplit(s, i);
  }

  lemma EnsuredGood(c: Cache, id: string, at: nat, now: int)
    requires Good(c) && at <= |c.slots|
    ensures Good(c.(slots := Ensured(c.slots, id, at, now))) && Has(Ensured(c.slots, id, at, now), id)
  {
    hide SumSize, SumAccessors, Consistent;
    if !Has(c.slots, id) {
      var x := Fresh(id, now);
      InsertConsistent(c.slots, c.open, at, x);
      InsertSums(c.slots, at, x);
      HasAt(c.slots[..at] + [x] + c.slots[at..], at);
    }
  }

  /** An open stream's entry is there and in use. */
  lemma OpenHasEntry(c: Cache, k: nat)
    requires Good(c) && k < |c.open|
    ensures Has(c.slots, c.open[k].id) && EntryOf(c.slots, c.open[k].id).accessors > 0 && c.totalAccessors > 0
  {
    hide SumSize, SumAccessors, Count;
    var id := c.open[k].id;
    assert Has(c.slots, id);
    assert Agrees(c.slots[Find(c.slots, id)], c.open);
    CountPositive(c.open, k);
    SumSplit(c.slots, Find(c.slots, id));
  }

  // ---------------------------------------------------------------------------
  // Every operation keeps the books
  // ---------------------------------------------------------------------------

  lemma LimitedGood(c: Cache, max: nat, deleted: string -> bool)
    requires Good(c)
    ensures Good(Limited(c, max, deleted).1) && Limited(c, max, deleted).1.open == c.open
    ensures Limited(c, max, deleted).0 == Granted ==> Limited(c, max, deleted).1.totalSize <= max
  {
    hide SumSize, SumAccessors, Consistent, Evict;
    EvictConsistent(c.slots, c.open, c.totalSize, max, deleted);
    EvictLeaves(c.slots, c.totalSize, max, deleted);
    EvictVerdict(c.slots, c.totalSize, max, deleted);
  }

  lemma PutGood(c: Cache, id: string, e: Entry)
    requires Good(c) && Has(c.slots, id) && Agrees(Slot(id, e), c.open)
    requires e.size == EntryOf(c.slots, id).size && e.accessors == EntryOf(c.slots, id).accessors
    ensures Good(c.(slots := Put(c.slots, id, e)))
  {
    hide SumSize, SumAccessors, Consistent, Agrees;
    PutSums(c.slots, id, e);
    UpdateConsistent(c.slots, c.open, Find(c.slots, id), Slot(id, e));
  }

  lemma EntryAgrees(c: Cache, id: string)
    requires Good(c) && Has(c.slots, id)
    ensures Agrees(Slot(id, EntryOf(c.slots, id)), c.open)
  {
    hide SumSize, SumAccessors, Count;
    assert Agrees(c.slots[Find(c.slots, id)], c.open);
  }

  /** An entry that survives the limit check is unchanged. */
  lemma SurvivorSame(c: Cache, max: nat, deleted: string -> bool, id: string)
    requires Good(c) && Has(c.slots, id) && Has(Limited(c, max, deleted).1.slots, id)
    ensures EntryOf(Limited(c, max, deleted).1.slots, id) == EntryOf(c.slots, id)
  {
    hide SumSize, SumAccessors, Evict;
    EvictLeaves(c.slots, c.totalSize, max, deleted);
    var t := Limited(c, max, deleted).1.slots;
    var x := t[Find(t, id)];
    assert x in c.slots;
    var j :| 0 <= j < |c.slots| && c.slots[j] == x;
    FindAt(c.slots, j);
  }

  /** A granted lock leaves the entry locked and the cache within its limit. */
  lemma LockGood(max: nat, c: Cache, op: Op)
    requires op.Lock? && Good(c) && Allowed(c, op)
    ensures var (verdict, d) := AfterLock(max, c, op);
      Good(d) && (verdict == Granted ==> d.totalSize <= max && Has(d.slots, op.id)
                                         && EntryOf(d.slots, op.id).lockState == LS_LOCKED)
  {
    hide SumSize, SumAccessors, Consistent, Ensured, Limited, Agrees;
    var d := c.(slots := Ensured(c.slots, op.id, op.at, op.now));
    EnsuredGood(c, op.id, op.at, op.now);
    var e := EntryOf(d.slots, op.id);
    if CanLock(e) {
      LimitedGood(d, max, op.deleted);
      var (verdict, f) := Limited(d, max, op.deleted);
      if verdict == Granted && Has(f.slots, op.id) {
        SurvivorSame(d, max, op.deleted, op.id);
        EntryAgrees(f, op.id);
        NoStreamsUnlocked(Slot(op.id, e), f.open);
        PutGood(f, op.id, e.(lockState := LS_LOCKED));
        PutHas(f.slots, op.id, e.(lockState := LS_LOCKED));
      }
    }
  }

  lemma PutHas(s: seq<Slot>, id: string, e: Entry)
    requires Has(s, id)
    ensures Has(Put(s, id, e), id) && EntryOf(Put(s, id, e), id) == e && Find(Put(s, id, e), id) == Find(s, id)
  {
    var t, i := Put(s, id, e), Find(s, id);
    assert forall k :: 0 <= k < i ==> t[k].id != id;
    assert t[i].id == id;
    FindIs(t, id, i);
  }

  lemma {:induction false} FindIs(s: seq<Slot>, id: string, i: nat)
    requires i < |s| && s[i].id == id && forall k :: 0 <= k < i ==> s[k].id != id
    ensures Find(s, id) == i
  {
  }

  lemma UnlockGood(max: nat, c: Cache, op: Op)
    requires op.Unlock? && Good(c)
    ensures Good(AfterUnlock(max, c, op).1)
  {
    hide SumSize, SumAccessors, Consistent, Limited, Count;
    if Has(c.slots, op.id) {
      var e := EntryOf(c.slots, op.id);
      EntryAgrees(c, op.id);
      if e.lockState == LS_LOCKED && e.accessors > 0 {
        PutGood(c, op.id, e.(lockState := LS_UNLOCKING));
      } else if e.lockState == LS_LOCKED {
        NoneOpen(c.open, op.id);
        var x := e.(lockState := LS_UNLOCKED, lastModified := op.now);
        PutGood(c, op.id, x);
        LimitedGood(c.(slots := Put(c.slots, op.id, x)), max, op.deleted);
      }
    }
  }

  lemma WriteGood(c: Cache, op: Op)
    requires op.Write? && Good(c)
    ensures Good(AfterWrite(c, op).1)
  {
    hide SumSize, SumAccessors, Consistent;
    if AfterWrite(c, op).0 == Granted {
      var e := EntryOf(c.slots, op.id);
      var d := AfterWrite(c, op).1;
      var i := Find(c.slots, op.id);
      PutSums(c.slots, op.id, d.slots[i].entry);
      OpenConsistent(c.slots, c.open, i, d.slots[i], Stream(op.id, op.index, true));
    }
  }

  lemma ReadGood(c: Cache, op: Op)
    requires op.Read? && Good(c)
    ensures Good(AfterRead(c, op).1)
  {
    hide SumSize, SumAccessors, Consistent;
    if AfterRead(c, op).0 == Granted {
      var d := AfterRead(c, op).1;
      var i := Find(c.slots, op.id);
      PutSums(c.slots, op.id, d.slots[i].entry);
      OpenConsistent(c.slots, c.open, i, d.slots[i], Stream(op.id, op.index, false));
    }
  }

  lemma DeleteGood(c: Cache, op: Op)
    requires op.Delete? && Good(c)
    ensures Good(AfterDelete(c, op).1)
  {
    hide SumSize, SumAccessors, Consistent;
    if Has(c.slots, op.id) && Deletable(EntryOf(c.slots, op.id)) {
      var i := Find(c.slots, op.id);
      RemoveConsistent(c.slots, c.open, i);
      RemoveSums(c.slots, i);
    }
  }

  lemma ClosedGood(c: Cache, k: nat, fileSize: nat, now: int)
    requires Good(c) && k < |c.open| && Has(c.slots, c.open[k].id)
    requires EntryOf(c.slots, c.open[k].id).accessors > 0 && c.totalAccessors > 0
    ensures Good(Closed(c, k, fileSize, now))
  {
    hide SumSize, SumAccessors, Consistent;
    var id := c.open[k].id;
    var i := Find(c.slots, id);
    var x := Closed(c, k, fileSize, now).slots[i].entry;
    PutSums(c.slots, id, x);
    CloseConsistent(c.slots, c.open, k, i, Slot(id, x));
  }

  lemma ReleaseGood(max: nat, c: Cache, op: Op)
    requires op.Release? && Good(c) && Allowed(c, op)
    ensures Good(AfterRelease(max, c, op).1)
  {
    hide SumSize, SumAccessors, Consistent, Limited, Closed;
    OpenHasEntry(c, op.k);
    ClosedGood(c, op.k, op.fileSize, op.now);
    if LastWriter(c, op.k) {
      LimitedGood(Closed(c, op.k, op.fileSize, op.now), max, op.deleted);
    }
  }

  /** A purge that goes through forgets entries whose bytes are still booked. */
  predicate Forgets(c: Cache, op: Op) { op.Purge? && op.purged && c.totalAccessors == 0 && c.totalSize > 0 }

  lemma PurgeGoodIff(c: Cache, op: Op)
    requires op.Purge? && Good(c)
    ensures Good(AfterPurge(c, op).1) <==> !Forgets(c, op)
  {
    hide Count;
    if c.totalAccessors == 0 && op.purged {
      NoAccessorsNoStreams(c.slots, c.open);
    }
  }

  /** Every operation, in every good cache and with every answer of the file system, keeps
      totals and streams right, if and only if it is not a purge of booked bytes. */
  lemma StepGoodIff(max: nat, c: Cache, op: Op)
    requires Good(c) && Allowed(c, op)
    ensures Good(Step(max, c, op).1) <==> !Forgets(c, op)
  {
    hide Good, AfterLock, AfterUnlock, AfterWrite, AfterRead, AfterDelete, AfterRelease, AfterPurge;
    match op
    case Lock(_, _, _, _) => LockGood(max, c, op);
    case Write(_, _, _, _) => WriteGood(c, op);
    case Unlock(_, _, _) => UnlockGood(max, c, op);
    case Read(_, _, _) => ReadGood(c, op);
    case Delete(_, _) => DeleteGood(c, op);
    case Release(_, _, _, _) => ReleaseGood(max, c, op);
    case Purge(_) => PurgeGoodIff(c, op);
  }

  // ---------------------------------------------------------------------------
  // What a call comes to
  // ---------------------------------------------------------------------------

  /** Locking is undefined if and only if the limit check runs past the end, or succeeds
      by evicting the entry being locked; it is refused if and only if the entry is locked
      or being read, or the limit check gives up. Below the limit neither can happen, and
      an entry that waits for its last writer is never the one evicted. */
  lemma LockVerdict(max: nat, c: Cache, op: Op)
    requires op.Lock? && Good(c) && Allowed(c, op)
    ensures var s := Ensured(c.slots, op.id, op.at, op.now);
      && Has(s, op.id) && SumSize(s) <= c.totalSize
      && var e, r, verdict := EntryOf(s, op.id), Evict(s, c.totalSize, max, op.deleted), AfterLock(max, c, op).0;
         && (verdict == Undefined <==>
               CanLock(e) && (r.verdict == Undefined || (r.verdict == Granted && !Has(r.left, op.id))))
         && (verdict == Refused <==> !CanLock(e) || r.verdict == Refused)
         && (c.totalSize <= max ==> verdict == if CanLock(e) then Granted else Refused)
         && (!Deletable(e) ==> Has(r.left, op.id))
  {
    hide SumSize, SumAccessors, Consistent;
    EnsuredGood(c, op.id, op.at, op.now);
    var s := Ensured(c.slots, op.id, op.at, op.now);
    hide Ensured;
    EvictStep(s, c.totalSize, max, op.deleted);
    EvictLeaves(s, c.totalSize, max, op.deleted);
    hide Evict;
    var r := Evict(s, c.totalSize, max, op.deleted);
    if !Deletable(EntryOf(s, op.id)) {
      var x := s[Find(s, op.id)];
      assert x in r.left;
      var j :| 0 <= j < |r.left| && r.left[j] == x;
      HasAt(r.left, j);
    }
  }

  // ---------------------------------------------------------------------------
  // The lock protocol
  // ---------------------------------------------------------------------------

  /** The entry of a resource that is there before and after a call. Locked by a granted
      lock; unlocked, with the time of day, at once or after its last writer; sizes booked
      by writers; and otherwise as it was. */
  function NextEntry(c: Cache, op: Op, id: string, verdict: Verdict): Entry
    requires Has(c.slots, id) && Allowed(c, op)
  {
    var e := EntryOf(c.slots, id);
    match op
    case Lock(i, _, _, _) => if i == id && verdict == Granted then e.(lockState := LS_LOCKED) else e
    case Write(i, index, fileSize, _) =>
      if i != id || verdict != Granted then e
      else Entry(e.lockState, e.accessors + 1, if fileSize > e.size then 0 else e.size - fileSize,
                 if index < e.streams then e.streams else index + 1, e.lastModified)
    case Read(i, _, _) => if i == id && verdict == Granted then e.(accessors := e.accessors + 1) else e
    case Unlock(i, now, _) =>
      if i != id || e.lockState != LS_LOCKED then e
      else if e.accessors > 0 then e.(lockState := LS_UNLOCKING)
      else e.(lockState := LS_UNLOCKED, lastModified := now)
    case Release(k, fileSize, now, _) =>
      if c.open[k].id != id || e.accessors == 0 then e
      else if e.lockState == LS_UNLOCKED then e.(accessors := e.accessors - 1)
      else if e.lockState == LS_UNLOCKING && e.accessors == 1 then
        Entry(LS_UNLOCKED, 0, e.size + fileSize, e.streams, now)
      else e.(accessors := e.accessors - 1, size := e.size + fileSize)
    case _ => e
  }

  lemma EntryByMember(c: Cache, x: Slot)
    requires Good(c) && x in c.slots
    ensures Has(c.slots, x.id) && EntryOf(c.slots, x.id) == x.entry
  {
    hide SumSize, SumAccessors;
    var j :| 0 <= j < |c.slots| && c.slots[j] == x;
    FindAt(c.slots, j);
  }

  lemma PutMembers(s: seq<Slot>, id: string, e: Entry, other: string)
    requires Has(s, id) && other != id
    ensures Has(Put(s, id, e), other) <==> Has(s, other)
    ensures Has(s, other) ==> EntryOf(Put(s, id, e), other) == EntryOf(s, other)
  {
    var t := Put(s, id, e);
    if Has(s, other) {
      FindIs(t, other, Find(s, other));
    } else if Has(t, other) {
      FindIs(s, other, Find(t, other));
    }
  }

  lemma EnsuredMembers(c: Cache, id: string, at: nat, now: int, other: string)
    requires Good(c) && at <= |c.slots| && (other != id || Has(c.slots, id))
    ensures var s := Ensured(c.slots, id, at, now);
      (Has(s, other) <==> Has(c.slots, other)) && (Has(s, other) ==> EntryOf(s, other) == EntryOf(c.slots, other))
  {
    hide SumSize, SumAccessors, Consistent;
    EnsuredGood(c, id, at, now);
    var d := c.(slots := Ensured(c.slots, id, at, now));
    if Has(c.slots, other) {
      var x := c.slots[Find(c.slots, other)];
      InsertedIn(c.slots, id, at, now, x);
      EntryByMember(d, x);
    }
    if Has(d.slots, other) {
      var x := d.slots[Find(d.slots, other)];
      EnsuredOnly(c.slots, id, at, now, x);
      EntryByMember(c, x);
    }
  }

  lemma EnsuredOnly(s: seq<Slot>, id: string, at: nat, now: int, x: Slot)
    requires at <= |s| && x in Ensured(s, id, at, now) && (x.id != id || Has(s, id))
    ensures x in s
  {
  }

  lemma InsertedIn(s: seq<Slot>, id: string, at: nat, now: int, x: Slot)
    requires at <= |s| && x in s
    ensures x in Ensured(s, id, at, now)
  {
    var j :| 0 <= j < |s| && s[j] == x;
    var t := Ensured(s, id, at, now);
    assert !Has(s, id) ==> t[if j < at then j else j + 1] == x;
  }

  lemma LockTransition(max: nat, c: Cache, op: Op, id: string)
    requires op.Lock? && Good(c) && Allowed(c, op) && Has(c.slots, id) && Has(AfterLock(max, c, op).1.slots, id)
    ensures EntryOf(AfterLock(max, c, op).1.slots, id) == NextEntry(c, op, id, AfterLock(max, c, op).0)
  {
    hide SumSize, SumAccessors, Consistent, Ensured, Limited;
    var d := c.(slots := Ensured(c.slots, op.id, op.at, op.now));
    EnsuredGood(c, op.id, op.at, op.now);
    EnsuredMembers(c, op.id, op.at, op.now, id);
    var e := EntryOf(d.slots, op.id);
    if CanLock(e) {
      var (verdict, f) := Limited(d, max, op.deleted);
      if verdict == Granted && Has(f.slots, op.id) {
        if id == op.id {
          PutHas(f.slots, id, e.(lockState := LS_LOCKED));
        } else {
          PutMembers(f.slots, op.id, e.(lockState := LS_LOCKED), id);
          SurvivorSame(d, max, op.deleted, id);
        }
      } else {
        SurvivorSame(d, max, op.deleted, id);
      }
    }
  }

  lemma UnlockTransition(max: nat, c: Cache, op: Op, id: string)
    requires op.Unlock? && Good(c) && Has(c.slots, id) && Has(AfterUnlock(max, c, op).1.slots, id)
    ensures EntryOf(AfterUnlock(max, c, op).1.slots, id) == NextEntry(c, op, id, AfterUnlock(max, c, op).0)
  {
    hide SumSize, SumAccessors, Consistent, Limited, Good;
    if Has(c.slots, op.id) {
      var e := EntryOf(c.slots, op.id);
      var x := e.(lockState := if e.accessors > 0 then LS_UNLOCKING else LS_UNLOCKED,
                  lastModified := if e.accessors > 0 then e.lastModified else op.now);
      PutHas(c.slots, op.id, x);
      if id != op.id {
        PutMembers(c.slots, op.id, x, id);
      }
      if e.lockState == LS_LOCKED && e.accessors == 0 {
        UnlockedGood(c, op.id, op.now);
        var d := c.(slots := Put(c.slots, op.id, x));
        SurvivorSame(d, max, op.deleted, id);
      }
    }
  }

  lemma ReleaseTransition(max: nat, c: Cache, op: Op, id: string)
    requires op.Release? && Good(c) && Allowed(c, op) && Has(c.slots, id) && Has(AfterRelease(max, c, op).1.slots, id)
    ensures EntryOf(AfterRelease(max, c, op).1.slots, id) == NextEntry(c, op, id, AfterRelease(max, c, op).0)
  {
    hide SumSize, SumAccessors, Consistent, Limited, Good;
    OpenHasEntry(c, op.k);
    ClosedGood(c, op.k, op.fileSize, op.now);
    var d := Closed(c, op.k, op.fileSize, op.now);
    var who := c.open[op.k].id;
    var x := d.slots[Find(c.slots, who)].entry;
    PutHas(c.slots, who, x);
    if id != who {
      PutMembers(c.slots, who, x, id);
    }
    if LastWriter(c, op.k) {
      SurvivorSame(d, max, op.deleted, id);
    }
  }

  lemma OpenTransition(c: Cache, op: Op, id: string)
    requires (op.Write? || op.Read?) && Good(c) && Has(c.slots, id)
    ensures var d := if op.Write? then AfterWrite(c, op).1 else AfterRead(c, op).1;
      Has(d.slots, id)
      && EntryOf(d.slots, id) == NextEntry(c, op, id, if op.Write? then AfterWrite(c, op).0 else AfterRead(c, op).0)
  {
    hide SumSize, SumAccessors, Consistent, Good;
    var d := if op.Write? then AfterWrite(c, op).1 else AfterRead(c, op).1;
    if d != c {
      var x := d.slots[Find(c.slots, op.id)].entry;
      PutHas(c.slots, op.id, x);
      if id != op.id {
        PutMembers(c.slots, op.id, x, id);
      }
    }
  }

  lemma DeleteTransition(c: Cache, op: Op, id: string)
    requires op.Delete? && Good(c) && Has(c.slots, id) && Has(AfterDelete(c, op).1.slots, id)
    ensures EntryOf(AfterDelete(c, op).1.slots, id) == EntryOf(c.slots, id)
  {
    hide SumSize, SumAccessors, Consistent, Good;
    var d := AfterDelete(c, op).1;
    if d.slots != c.slots {
      var x := d.slots[Find(d.slots, id)];
      RemoveMembers(c.slots, Find(c.slots, op.id));
      EntryByMember(c, x);
    }
  }

  /** The protocol of locks, streams, sizes and times, for every resource and every call. */
  lemma StepEntry(max: nat, c: Cache, op: Op, id: string)
    requires Good(c) && Allowed(c, op) && Has(c.slots, id) && Has(Step(max, c, op).1.slots, id)
    ensures EntryOf(Step(max, c, op).1.slots, id) == NextEntry(c, op, id, Step(max, c, op).0)
  {
    hide Good, AfterLock, AfterUnlock, AfterWrite, AfterRead, AfterDelete, AfterRelease;
    match op
    case Lock(_, _, _, _) => LockTransition(max, c, op, id);
    case Write(_, _, _, _) => OpenTransition(c, op, id);
    case Unlock(_, _, _) => UnlockTransition(max, c, op, id);
    case Read(_, _, _) => OpenTransition(c, op, id);
    case Delete(_, _) => DeleteTransition(c, op, id);
    case Release(_, _, _, _) => ReleaseTransition(max, c, op, id);
    case Purge(_) =>
  }

  /** A stream is opened by each granted read or write, a writer or a reader as asked, and
      closed by its release; no other call touches the open streams. */
  lemma StepStreams(max: nat, c: Cache, op: Op)
    requires Good(c) && Allowed(c, op)
    ensures var (verdict, d) := Step(max, c, op);
      && (op.Write? && verdict == Granted ==> d.open == c.open + [Stream(op.id, op.index, true)])
      && (op.Read? && verdict == Granted ==> d.open == c.open + [Stream(op.id, op.index, false)])
      && (op.Release? ==> d.open == c.open[..op.k] + c.open[op.k + 1..])
      && (op.Release? || ((op.Write? || op.Read?) && verdict == Granted) || d.open == c.open)
    ensures op.Write? ==> (Step(max, c, op).0 == Granted <==>
      op.opens && Has(c.slots, op.id) && EntryOf(c.slots, op.id).lockState == LS_LOCKED)
    ensures op.Read? ==> (Step(max, c, op).0 == Granted <==>
      op.opens && Has(c.slots, op.id) && EntryOf(c.slots, op.id).lockState == LS_UNLOCKED
      && op.index < EntryOf(c.slots, op.id).streams)
  {
    hide SumSize, SumAccessors, Consistent, Evict;
  }

  /** Calls that check the limit: a lock that can be had, and whatever unlocks. */
  predicate Checks(c: Cache, op: Op)
    requires Allowed(c, op)
  {
    match op
    case Lock(id, _, _, _) =>
      Has(c.slots, id) ==>
        var e := EntryOf(c.slots, id); e.lockState != LS_LOCKED && (e.lockState == LS_UNLOCKED ==> e.accessors == 0)
    case Unlock(id, _, _) =>
      Has(c.slots, id) && var e := EntryOf(c.slots, id); e.lockState == LS_LOCKED && e.accessors == 0
    case Release(k, _, _, _) =>
      var id := c.open[k].id;
      Has(c.slots, id) && var e := EntryOf(c.slots, id); e.lockState == LS_UNLOCKING && e.accessors == 1
    case _ => false
  }

  lemma LimitedEnforces(c: Cache, max: nat, deleted: string -> bool)
    requires Good(c) && forall id :: deleted(id)
    ensures var (verdict, d) := Limited(c, max, deleted);
      && (verdict != Undefined ==> d.totalSize <= max || CannotGoOn(d.slots))
      && (verdict == Undefined <==> d.totalSize > max && Choose(d.slots) == PastTheEnd)
  {
    hide SumSize, SumAccessors, Consistent, Evict, CannotGoOn, Choose;
    EvictVerdict(c.slots, c.totalSize, max, deleted);
    assert AllGo(c.slots, deleted);
  }

  /** Each such call enforces the limit as far as it can: afterwards, unless it ran past the
      end, the total is within the limit, or nothing is deletable, or the entry that would
      have to go next is not. */
  lemma StepEnforces(max: nat, c: Cache, op: Op)
    requires Good(c) && Allowed(c, op) && Checks(c, op) && forall id :: op.deleted(id)
    ensures var (verdict, d) := Step(max, c, op);
      && (verdict != Undefined ==> d.totalSize <= max || CannotGoOn(d.slots))
      && (!op.Lock? ==> (verdict == Undefined <==> d.totalSize > max && Choose(d.slots) == PastTheEnd))
      && (!op.Lock? && verdict != Undefined ==> verdict == Granted)
  {
    hide SumSize, SumAccessors, Consistent, Limited, Ensured, Closed, CannotGoOn, Choose;
    match op
    case Lock(id, at, now, deleted) =>
      EnsuredGood(c, id, at, now);
      FreshCanLock(c, op);
      var d := c.(slots := Ensured(c.slots, id, at, now));
      LimitedEnforces(d, max, deleted);
      LimitedGood(d, max, deleted);
    case Unlock(id, now, deleted) =>
      UnlockedGood(c, id, now);
      var x := EntryOf(c.slots, id).(lockState := LS_UNLOCKED, lastModified := now);
      LimitedEnforces(c.(slots := Put(c.slots, id, x)), max, deleted);
    case Release(k, fileSize, now, deleted) =>
      OpenHasEntry(c, k);
      ClosedGood(c, k, fileSize, now);
      LimitedEnforces(Closed(c, k, fileSize, now), max, deleted);
    case _ =>
  }

  lemma FreshCanLock(c: Cache, op: Op)
    requires op.Lock? && Good(c) && Allowed(c, op) && Checks(c, op)
    ensures var s := Ensured(c.slots, op.id, op.at, op.now); Has(s, op.id) && CanLock(EntryOf(s, op.id))
  {
    hide SumSize, SumAccessors, Consistent;
    EnsuredGood(c, op.id, op.at, op.now);
    if !Has(c.slots, op.id) {
      PutInserted(c.slots, op.at, Fresh(op.id, op.now), Fresh(op.id, op.now).entry);
    }
  }

  lemma LimitedGone(c: Cache, max: nat, deleted: string -> bool, id: string)
    requires Good(c)
    ensures var d := Limited(c, max, deleted).1;
      && (Has(d.slots, id) ==> Has(c.slots, id))
      && (Has(c.slots, id) && !Has(d.slots, id) ==> c.totalSize > max && Deletable(EntryOf(c.slots, id)))
  {
    hide SumSize, SumAccessors, Consistent, Evict;
    EvictLeaves(c.slots, c.totalSize, max, deleted);
    EvictStep(c.slots, c.totalSize, max, deleted);
    var d := Limited(c, max, deleted).1;
    if Has(d.slots, id) {
      var x := d.slots[Find(d.slots, id)];
      EntryByMember(c, x);
    }
    if Has(c.slots, id) && !Deletable(EntryOf(c.slots, id)) {
      var x := c.slots[Find(c.slots, id)];
      assert x in d.slots;
      var j :| 0 <= j < |d.slots| && d.slots[j] == x;
      HasAt(d.slots, j);
    }
  }

  /** What a call books before it checks the limit. */
  function Booked(c: Cache, op: Op): nat { c.totalSize + if op.Release? then op.fileSize else 0 }

  /** A resource goes only by a purge, by its deletion while unlocked and unused, or in a
      limit check above the limit, when it is unlocked and unused by then. */
  lemma StepGone(max: nat, c: Cache, op: Op, id: string)
    requires Good(c) && Allowed(c, op) && Has(c.slots, id) && !Has(Step(max, c, op).1.slots, id)
    ensures
      || (op.Purge? && op.purged && c.totalAccessors == 0)
      || (op.Delete? && op.id == id && Deletable(EntryOf(c.slots, id)))
      || (Checks(c, op) && Booked(c, op) > max && Deletable(NextEntry(c, op, id, Refused)))
  {
    hide SumSize, SumAccessors, Consistent, Limited, Ensured;
    match op
    case Lock(i, at, now, deleted) => LockGone(max, c, op, id);
    case Write(_, _, _, _) => OpenTransition(c, op, id);
    case Read(_, _, _) => OpenTransition(c, op, id);
    case Unlock(i, now, deleted) => UnlockGone(max, c, op, id);
    case Release(k, fileSize, now, deleted) => ReleaseGone(max, c, op, id);
    case Delete(i, gone) => DeleteMeans(c, op, id);
    case Purge(_) =>
  }

  lemma LockGone(max: nat, c: Cache, op: Op, id: string)
    requires op.Lock? && Good(c) && Allowed(c, op) && Has(c.slots, id) && !Has(AfterLock(max, c, op).1.slots, id)
    ensures Checks(c, op) && c.totalSize > max && Deletable(EntryOf(c.slots, id))
  {
    hide SumSize, SumAccessors, Consistent, Limited, Ensured;
    EnsuredGood(c, op.id, op.at, op.now);
    EnsuredMembers(c, op.id, op.at, op.now, id);
    if Has(c.slots, op.id) {
      EnsuredMembers(c, op.id, op.at, op.now, op.id);
    }
    var d := c.(slots := Ensured(c.slots, op.id, op.at, op.now));
    LimitedGone(d, max, op.deleted, id);
    var (verdict, f) := Limited(d, max, op.deleted);
    if Has(f.slots, op.id) {
      var x := EntryOf(d.slots, op.id).(lockState := LS_LOCKED);
      PutHas(f.slots, op.id, x);
      if id != op.id {
        PutMembers(f.slots, op.id, x, id);
      }
    }
  }

  lemma UnlockGone(max: nat, c: Cache, op: Op, id: string)
    requires op.Unlock? && Good(c) && Has(c.slots, id) && !Has(AfterUnlock(max, c, op).1.slots, id)
    ensures Checks(c, op) && c.totalSize > max && Deletable(NextEntry(c, op, id, Refused))
  {
    hide SumSize, SumAccessors, Consistent, Limited;
    assert Has(c.slots, op.id);
    var e := EntryOf(c.slots, op.id);
    var x := if e.accessors > 0 then e.(lockState := LS_UNLOCKING)
             else e.(lockState := LS_UNLOCKED, lastModified := op.now);
    PutHas(c.slots, op.id, x);
    if id != op.id {
      PutMembers(c.slots, op.id, x, id);
    }
    if e.lockState == LS_LOCKED && e.accessors == 0 {
      UnlockedGood(c, op.id, op.now);
      LimitedGone(c.(slots := Put(c.slots, op.id, x)), max, op.deleted, id);
    }
  }

  lemma ReleaseGone(max: nat, c: Cache, op: Op, id: string)
    requires op.Release? && Good(c) && Allowed(c, op) && Has(c.slots, id) && !Has(AfterRelease(max, c, op).1.slots, id)
    ensures Checks(c, op) && Booked(c, op) > max && Deletable(NextEntry(c, op, id, Refused))
  {
    hide SumSize, SumAccessors, Consistent, Limited;
    OpenHasEntry(c, op.k);
    ClosedGood(c, op.k, op.fileSize, op.now);
    var d := Closed(c, op.k, op.fileSize, op.now);
    var who := c.open[op.k].id;
    var x := d.slots[Find(c.slots, who)].entry;
    PutHas(c.slots, who, x);
    if id != who {
      PutMembers(c.slots, who, x, id);
    }
    if LastWriter(c, op.k) {
      LimitedGone(d, max, op.deleted, id);
    }
  }

  /** A deletion removes its resource if and only if that is unlocked and unused. */
  lemma DeleteMeans(c: Cache, op: Op, id: string)
    requires op.Delete? && Good(c)
    ensures Has(AfterDelete(c, op).1.slots, id) <==>
      Has(c.slots, id) && !(id == op.id && Deletable(EntryOf(c.slots, id)))
  {
    hide SumSize, SumAccessors, Consistent;
    var d := AfterDelete(c, op).1;
    DeleteGood(c, op);
    if Has(c.slots, op.id) && Deletable(EntryOf(c.slots, op.id)) {
      var i := Find(c.slots, op.id);
      RemoveMembers(c.slots, i);
      if Has(d.slots, id) {
        var j := Find(d.slots, id);
        EntryByMember(c, d.slots[j]);
        RemovedDiffers(c, i, j);
      } else if Has(c.slots, id) && id != op.id {
        EntryByMember(d, c.slots[Find(c.slots, id)]);
      }
    }
  }

  lemma RemovedDiffers(c: Cache, i: nat, j: nat)
    requires Good(c) && i < |c.slots| && j < |c.slots| - 1
    ensures Remove(c.slots, i)[j].id != c.slots[i].id
  {
    hide SumSize, SumAccessors, Agrees;
  }

  /** What the calls that check no limit return. */
  lemma StepVerdict(max: nat, c: Cache, op: Op)
    requires Good(c) && Allowed(c, op) && !Checks(c, op)
    ensures var verdict := Step(max, c, op).0;
      match op
      case Lock(_, _, _, _) => verdict == Refused
      case Unlock(id, _, _) =>
        verdict == if !Has(c.slots, id) then Undefined
                   else if EntryOf(c.slots, id).lockState != LS_LOCKED then Refused else Granted
      case Write(id, _, _, opens) =>
        verdict == if !Has(c.slots, id) then Undefined
                   else if EntryOf(c.slots, id).lockState == LS_LOCKED && opens then Granted else Refused
      case Read(id, index, opens) =>
        verdict == if !Has(c.slots, id) then Undefined
                   else if EntryOf(c.slots, id).lockState == LS_UNLOCKED && index < EntryOf(c.slots, id).streams && opens
                   then Granted else Refused
      case Delete(id, gone) =>
        verdict == if !Has(c.slots, id) || (Deletable(EntryOf(c.slots, id)) && gone) then Granted else Refused
      case Release(_, _, _, _) => verdict == Granted
      case Purge(purged) => verdict == if c.totalAccessors == 0 && purged then Granted else Refused
  {
    hide SumSize, SumAccessors, Consistent, Limited;
    if op.Lock? {
      EnsuredMembers(c, op.id, op.at, op.now, op.id);
    } else if op.Release? {
      OpenHasEntry(c, op.k);
    }
  }

  /** A resource appears only by a lock, as a new entry without bytes, streams or readers. */
  lemma StepAppears(max: nat, c: Cache, op: Op, id: string)
    requires Good(c) && Allowed(c, op) && !Has(c.slots, id) && Has(Step(max, c, op).1.slots, id)
    ensures op.Lock? && op.id == id
    ensures var (verdict, d) := Step(max, c, op);
      EntryOf(d.slots, id) == Entry(if verdict == Granted then LS_LOCKED else LS_UNLOCKED, 0, 0, 0, op.now)
  {
    hide SumSize, SumAccessors, Consistent, Limited, Ensured;
    match op
    case Lock(i, at, now, deleted) => LockAppears(max, c, op, id);
    case Write(i, _, _, _) => OpenAppears(c, op, id);
    case Read(i, _, _) => OpenAppears(c, op, id);
    case Unlock(i, now, deleted) => UnlockAppears(max, c, op, id);
    case Release(k, fileSize, now, deleted) => ReleaseAppears(max, c, op, id);
    case Delete(i, gone) => DeleteMeans(c, op, id);
    case Purge(_) =>
  }

  lemma LockAppears(max: nat, c: Cache, op: Op, id: string)
    requires op.Lock? && Good(c) && Allowed(c, op) && !Has(c.slots, id) && Has(AfterLock(max, c, op).1.slots, id)
    ensures op.id == id
    ensures var (verdict, d) := AfterLock(max, c, op);
      EntryOf(d.slots, id) == Entry(if verdict == Granted then LS_LOCKED else LS_UNLOCKED, 0, 0, 0, op.now)
  {
    hide SumSize, SumAccessors, Consistent, Limited;
    EnsuredGood(c, op.id, op.at, op.now);
    var d := c.(slots := Ensured(c.slots, op.id, op.at, op.now));
    if id != op.id {
      EnsuredMembers(c, op.id, op.at, op.now, id);
    } else {
      PutInserted(c.slots, op.at, Fresh(id, op.now), Fresh(id, op.now).entry);
    }
    hide Ensured;
    LimitedGone(d, max, op.deleted, id);
    var (verdict, f) := Limited(d, max, op.deleted);
    if Has(f.slots, op.id) {
      var x := EntryOf(d.slots, op.id).(lockState := LS_LOCKED);
      PutHas(f.slots, op.id, x);
      if id != op.id {
        PutMembers(f.slots, op.id, x, id);
      } else {
        SurvivorSame(d, max, op.deleted, id);
      }
    }
  }

  lemma OpenAppears(c: Cache, op: Op, id: string)
    requires (op.Write? || op.Read?) && Good(c) && !Has(c.slots, id)
    ensures !Has((if op.Write? then AfterWrite(c, op).1 else AfterRead(c, op).1).slots, id)
  {
    hide SumSize, SumAccessors, Consistent;
    var d := if op.Write? then AfterWrite(c, op).1 else AfterRead(c, op).1;
    if d != c {
      PutMembers(c.slots, op.id, d.slots[Find(c.slots, op.id)].entry, id);
    }
  }

  lemma UnlockAppears(max: nat, c: Cache, op: Op, id: string)
    requires op.Unlock? && Good(c) && !Has(c.slots, id)
    ensures !Has(AfterUnlock(max, c, op).1.slots, id)
  {
    hide SumSize, SumAccessors, Consistent, Limited;
    if Has(c.slots, op.id) {
      var e := EntryOf(c.slots, op.id);
      var x := if e.accessors > 0 then e.(lockState := LS_UNLOCKING)
               else e.(lockState := LS_UNLOCKED, lastModified := op.now);
      PutMembers(c.slots, op.id, x, id);
      if e.lockState == LS_LOCKED && e.accessors == 0 {
        UnlockedGood(c, op.id, op.now);
        LimitedGone(c.(slots := Put(c.slots, op.id, x)), max, op.deleted, id);
      }
    }
  }

  lemma ReleaseAppears(max: nat, c: Cache, op: Op, id: string)
    requires op.Release? && Good(c) && Allowed(c, op) && !Has(c.slots, id)
    ensures !Has(AfterRelease(max, c, op).1.slots, id)
  {
    hide SumSize, SumAccessors, Consistent, Limited;
    OpenHasEntry(c, op.k);
    ClosedGood(c, op.k, op.fileSize, op.now);
    var d := Closed(c, op.k, op.fileSize, op.now);
    var who := c.open[op.k].id;
    PutMembers(c.slots, who, d.slots[Find(c.slots, who)].entry, id);
    if LastWriter(c, op.k) {
      LimitedGone(d, max, op.deleted, id);
    }
  }

  /** Writing a stream and closing it, under the lock: the old file's size is exchanged
      for the new one's on the entry and in the total, and everything else is as before. */
  lemma WriteAndClose(max: nat, c: Cache, write: Op, release: Op)
    requires write.Write? && Good(c) && AfterWrite(c, write).0 == Granted
    requires release.Release? && release.k == |c.open|
    ensures var d := AfterWrite(c, write).1;
      && Good(d) && Allowed(d, release)
      && var e, f := EntryOf(c.slots, write.id), AfterRelease(max, d, release).1;
         var previous := if write.fileSize > e.size then e.size else write.fileSize;
         && f.open == c.open && f.totalAccessors == c.totalAccessors
         && f.totalSize == c.totalSize - previous + release.fileSize
         && f.slots == Put(c.slots, write.id,
              e.(size := e.size - previous + release.fileSize,
                 streams := if write.index + 1 > e.streams then write.index + 1 else e.streams))
  {
    hide Good, Put, Find, Has, AfterRelease, AfterWrite;
    WriteGood(c, write);
    WrittenIs(c, write);
    var d, e := AfterWrite(c, write).1, EntryOf(c.slots, write.id);
    var previous := if write.fileSize > e.size then e.size else write.fileSize;
    var x := e.(streams := if write.index + 1 > e.streams then write.index + 1 else e.streams,
                size := e.size - previous, accessors := e.accessors + 1);
    PutHas(c.slots, write.id, x);
    LastOut(c.open, Stream(write.id, write.index, true));
    ReleaseLocked(max, d, release);
    PutPut(c.slots, write.id, x, x.(accessors := x.accessors - 1, size := x.size + release.fileSize));
  }

  lemma WrittenIs(c: Cache, write: Op)
    requires write.Write? && Good(c) && AfterWrite(c, write).0 == Granted
    ensures Has(c.slots, write.id)
    ensures var e := EntryOf(c.slots, write.id);
      var previous := if write.fileSize > e.size then e.size else write.fileSize;
      && e.lockState == LS_LOCKED && previous <= c.totalSize
      && AfterWrite(c, write).1
         == Cache(Put(c.slots, write.id, e.(streams := if write.index + 1 > e.streams then write.index + 1 else e.streams,
                                            size := e.size - previous, accessors := e.accessors + 1)),
                  c.open + [Stream(write.id, write.index, true)], c.totalSize - previous, c.totalAccessors + 1)
  {
    hide SumSize, SumAccessors, Consistent, Put;
    PutSums(c.slots, write.id, EntryOf(c.slots, write.id));
  }

  lemma ReleaseLocked(max: nat, c: Cache, op: Op)
    requires op.Release? && Good(c) && Allowed(c, op)
    requires var id := c.open[op.k].id; Has(c.slots, id) && EntryOf(c.slots, id).lockState == LS_LOCKED
    ensures var id := c.open[op.k].id;
      var e := EntryOf(c.slots, id);
      && e.accessors > 0 && c.totalAccessors > 0
      && AfterRelease(max, c, op)
         == (Granted, Cache(Put(c.slots, id, e.(accessors := e.accessors - 1, size := e.size + op.fileSize)),
                            c.open[..op.k] + c.open[op.k + 1..], c.totalSize + op.fileSize, c.totalAccessors - 1))
  {
    hide Good, Put, Find, Has, Limited;
    OpenHasEntry(c, op.k);
  }

  lemma LastOut(open: seq<Stream>, st: Stream)
    ensures (open + [st])[..|open|] + (open + [st])[|open| + 1..] == open
  {
  }

  lemma PutPut(s: seq<Slot>, id: string, x: Entry, y: Entry)
    requires Has(s, id)
    ensures Has(Put(s, id, x), id) && Put(Put(s, id, x), id, y) == Put(s, id, y)
  {
    PutHas(s, id, x);
  }

  // ---------------------------------------------------------------------------
  // Whole runs
  // ---------------------------------------------------------------------------

  /** No step so far was undefined or spoilt the books. */
  ghost predicate Defined(max: nat, ops: seq<Op>)
    decreases |ops|, 0
  {
    ops == [] ||
    var before, op := ops[..|ops| - 1], ops[|ops| - 1];
    Defined(max, before) && Fine(max, Run(max, before), op)
  }

  ghost predicate Fine(max: nat, c: Cache, op: Op)
    requires Good(c)
  {
    Allowed(c, op) && !Forgets(c, op) && Step(max, c, op).0 != Undefined
  }

  /** The cache after a run: totals and streams agree in every state reached. */
  ghost function Run(max: nat, ops: seq<Op>): (c: Cache)
    requires Defined(max, ops)
    ensures Good(c)
    decreases |ops|, 1
  {
    if ops == [] then EMPTY
    else
      var c, op := Run(max, ops[..|ops| - 1]), ops[|ops| - 1];
      StepGoodIff(max, c, op);
      Step(max, c, op).1
  }

  /** In every state reached no resource has a reader and a writer open together, and
      every open stream's entry is there, safe from removal. */
  lemma NoMixedAccess(max: nat, ops: seq<Op>, j: nat, k: nat)
    requires Defined(max, ops)
    requires var c := Run(max, ops); j < |c.open| && k < |c.open| && c.open[j].id == c.open[k].id
    ensures var c := Run(max, ops);
      && c.open[j].writing == c.open[k].writing
      && Has(c.slots, c.open[k].id) && !Deletable(EntryOf(c.slots, c.open[k].id))
  {
    var c := Run(max, ops);
    OpenHasEntry(c, k);
    EntryAgrees(c, c.open[k].id);
    hide Count, SumSize, SumAccessors, Consistent, Run, Defined;
  }

  ghost predicate Reached(max: nat, c: Cache) { exists ops :: Defined(max, ops) && Run(max, ops) == c }

  lemma ReachedStep(max: nat, c: Cache, op: Op)
    requires Reached(max, c) && Good(c) && Fine(max, c, op)
    ensures Reached(max, Step(max, c, op).1)
  {
    hide Fine, Step, Good;
    var ops :| Defined(max, ops) && Run(max, ops) == c;
    assert (ops + [op])[..|ops|] == ops;
    assert Defined(max, ops + [op]);
  }

  lemma ReachedEmpty(max: nat)
    ensures Reached(max, EMPTY) && Good(EMPTY)
  {
    assert Defined(max, []);
    assert Run(max, []) == EMPTY;
  }

  // ---------------------------------------------------------------------------
  // Undefined behaviour is reached
  // ---------------------------------------------------------------------------

  function Insert(s: seq<Slot>, at: nat, x: Slot): seq<Slot>
    requires at <= |s|
  {
    s[..at] + [x] + s[at..]
  }

  lemma PutInserted(s: seq<Slot>, at: nat, x: Slot, e: Entry)
    requires at <= |s| && !Has(s, x.id)
    ensures Has(Insert(s, at, x), x.id) && EntryOf(Insert(s, at, x), x.id) == x.entry
    ensures Put(Insert(s, at, x), x.id, e) == Insert(s, at, Slot(x.id, e))
  {
    var t := Insert(s, at, x);
    assert forall k :: 0 <= k < at ==> t[k].id != x.id;
    FindIs(t, x.id, at);
  }

  /** A quiet cache with one more resource: written through one stream, closed, still
      locked. */
  function Filled(c: Cache, id: string, at: nat, now: int, size: nat): Cache
    requires at <= |c.slots|
  {
    Cache(Insert(c.slots, at, Slot(id, Entry(LS_LOCKED, 0, size, 1, now))), [], c.totalSize + size, c.totalAccessors)
  }

  /** Locking a new resource, writing `size` bytes and closing gets there, below the limit. */
  lemma FilledReached(max: nat, c: Cache, id: string, at: nat, now: int, size: nat, deleted: string -> bool)
    requires Good(c) && Reached(max, c) && c.open == [] && at <= |c.slots| && !Has(c.slots, id) && c.totalSize <= max
    ensures Good(Filled(c, id, at, now, size)) && Reached(max, Filled(c, id, at, now, size))
  {
    var lock, write := Lock(id, at, now, deleted), Write(id, 0, 0, true);
    var release := Release(0, size, now, deleted);
    hide Reached, Good;
    var c1 := c.(slots := Insert(c.slots, at, Slot(id, Entry(LS_LOCKED, 0, 0, 0, now))));
    LockStep(max, c, lock);
    StepGoodIff(max, c, lock);
    ReachedStep(max, c, lock);
    var c2 := Cache(Insert(c.slots, at, Slot(id, Entry(LS_LOCKED, 1, 0, 1, now))), [Stream(id, 0, true)],
                    c.totalSize, c.totalAccessors + 1);
    WriteStep(max, c, c1, at, write, now);
    StepGoodIff(max, c1, write);
    ReachedStep(max, c1, write);
    ReleaseStep(max, c, c2, at, release, id, now);
    StepGoodIff(max, c2, release);
    ReachedStep(max, c2, release);
  }

  lemma LockStep(max: nat, c: Cache, op: Op)
    requires op.Lock? && Good(c) && Allowed(c, op) && !Has(c.slots, op.id) && c.totalSize <= max
    ensures Step(max, c, op)
         == (Granted, c.(slots := Insert(c.slots, op.at, Slot(op.id, Entry(LS_LOCKED, 0, 0, 0, op.now)))))
    ensures Fine(max, c, op) && !Forgets(c, op)
  {
    hide SumSize, SumAccessors, Consistent;
    EnsuredGood(c, op.id, op.at, op.now);
    PutInserted(c.slots, op.at, Fresh(op.id, op.now), Entry(LS_LOCKED, 0, 0, 0, op.now));
  }

  lemma WriteStep(max: nat, c: Cache, d: Cache, at: nat, op: Op, now: int)
    requires op.Write? && op.index == 0 && op.fileSize == 0 && op.opens && Good(d) && at <= |c.slots| && !Has(c.slots, op.id)
    requires d == c.(slots := Insert(c.slots, at, Slot(op.id, Entry(LS_LOCKED, 0, 0, 0, now)))) && c.open == []
    ensures Step(max, d, op)
         == (Granted, Cache(Insert(c.slots, at, Slot(op.id, Entry(LS_LOCKED, 1, 0, 1, now))), [Stream(op.id, 0, true)],
                            c.totalSize, c.totalAccessors + 1))
    ensures Fine(max, d, op)
  {
    hide SumSize, SumAccessors, Consistent;
    PutInserted(c.slots, at, Slot(op.id, Entry(LS_LOCKED, 0, 0, 0, now)), Entry(LS_LOCKED, 1, 0, 1, now));
    assert [] + [Stream(op.id, 0, true)] == [Stream(op.id, 0, true)];
  }

  lemma ReleaseStep(max: nat, c: Cache, d: Cache, at: nat, op: Op, id: string, now: int)
    requires op.Release? && op.k == 0 && Good(d) && at <= |c.slots| && !Has(c.slots, id)
    requires d == Cache(Insert(c.slots, at, Slot(id, Entry(LS_LOCKED, 1, 0, 1, now))), [Stream(id, 0, true)],
                        c.totalSize, c.totalAccessors + 1)
    ensures Step(max, d, op) == (Granted, Filled(c, id, at, now, op.fileSize))
    ensures Fine(max, d, op)
  {
    hide SumSize, SumAccessors, Consistent;
    PutInserted(c.slots, at, Slot(id, Entry(LS_LOCKED, 1, 0, 1, now)), Entry(LS_LOCKED, 0, op.fileSize, 1, now));
    assert d.open[..0] + d.open[1..] == [];
  }

  /** The very first resource, if it exceeds the limit: unlocking it runs past the end. */
  lemma OverfullUnlock(max: nat, id: string, size: nat, now: int, deleted: string -> bool)
    requires size > max
    ensures exists c :: Reached(max, c) && Good(c) && Step(max, c, Unlock(id, now, deleted)).0 == Undefined
  {
    var c := Filled(EMPTY, id, 0, now, size);
    ReachedEmpty(max);
    FilledReached(max, EMPTY, id, 0, now, size, deleted);
    UnlockAlone(max, c, Unlock(id, now, deleted), Entry(LS_LOCKED, 0, size, 1, now));
  }

  lemma UnlockAlone(max: nat, c: Cache, op: Op, e: Entry)
    requires Good(c) && op.Unlock? && c.slots == [Slot(op.id, e)] && c.totalSize > max
    requires e.lockState == LS_LOCKED && e.accessors == 0
    ensures Step(max, c, op).0 == Undefined
  {
    hide SumSize, SumAccessors, Consistent;
    var x := e.(lockState := LS_UNLOCKED, lastModified := op.now);
    FindIs(c.slots, op.id, 0);
    var t := Put(c.slots, op.id, x);
    assert t == [Slot(op.id, x)];
    ChooseMeans(t);
    PutSums(c.slots, op.id, x);
    EvictStep(t, c.totalSize, max, op.deleted);
  }

  /** Two resources, the older one unlocked, the newer one written but still locked, over
      the limit together: locking the older one evicts it and writes to where it was. */
  lemma DanglingLock(max: nat, a: string, b: string, x: nat, y: nat, first: int, second: int, deleted: string -> bool)
    requires a != b && x <= max && y <= max && x + y > max && first < second && deleted(a)
    ensures exists c :: Reached(max, c) && Good(c) && c.totalSize > max && Has(c.slots, a)
                        && Step(max, c, Lock(a, 0, second, deleted)).0 == Undefined
  {
    hide SumSize, SumAccessors, Consistent, Reached, Good, Step;
    ReachedEmpty(max);
    FilledReached(max, EMPTY, a, 0, first, x, deleted);
    var c := Filled(EMPTY, a, 0, first, x);
    var unlock := Unlock(a, first, deleted);
    var d := Cache([Slot(a, Entry(LS_UNLOCKED, 0, x, 1, first))], [], x, 0);
    UnlockQuietly(max, c, unlock, Entry(LS_LOCKED, 0, x, 1, first));
    assert Step(max, c, unlock).1 == d;
    StepGoodIff(max, c, unlock);
    ReachedStep(max, c, unlock);
    assert !Has(d.slots, b);
    FilledReached(max, d, b, 1, second, y, deleted);
    LockOlder(max, Filled(d, b, 1, second, y), Lock(a, 0, second, deleted), b,
              Entry(LS_UNLOCKED, 0, x, 1, first), Entry(LS_LOCKED, 0, y, 1, second));
  }

  lemma UnlockQuietly(max: nat, c: Cache, op: Op, e: Entry)
    requires Good(c) && op.Unlock? && c.slots == [Slot(op.id, e)] && c.totalSize <= max
    requires e.lockState == LS_LOCKED && e.accessors == 0
    ensures Step(max, c, op)
         == (Granted, c.(slots := [Slot(op.id, e.(lockState := LS_UNLOCKED, lastModified := op.now))]))
    ensures Fine(max, c, op)
  {
    hide SumSize, SumAccessors, Consistent;
    FindIs(c.slots, op.id, 0);
    var x := e.(lockState := LS_UNLOCKED, lastModified := op.now);
    assert Put(c.slots, op.id, x) == [Slot(op.id, x)];
    PutSums(c.slots, op.id, x);
    EvictStep(Put(c.slots, op.id, x), c.totalSize, max, op.deleted);
  }

  lemma LockOlder(max: nat, c: Cache, op: Op, b: string, e: Entry, f: Entry)
    requires Good(c) && op.Lock? && op.at == 0 && op.id != b && c.slots == [Slot(op.id, e), Slot(b, f)]
    requires Deletable(e) && f.lockState == LS_LOCKED && e.lastModified < f.lastModified
    requires c.totalSize > max && c.totalSize - e.size <= max && op.deleted(op.id)
    ensures Has(c.slots, op.id) && Step(max, c, op).0 == Undefined
  {
    var s := c.slots;
    FindIs(s, op.id, 0);
    assert FirstDeletable(s) == 0;
    assert Oldest(s, 0, 1) == Oldest(s, 1, 0) == Oldest(s, 2, 0) == 0;
    assert Choose(s) == Victim(0);
    EvictStep(s, c.totalSize, max, op.deleted);
    var t := Remove(s, 0);
    assert t == [Slot(b, f)];
    EvictStep(t, c.totalSize - e.size, max, op.deleted);
    assert !Has(t, op.id);
    LockVerdict(max, c, op);
    hide SumSize, SumAccessors, Consistent, Evict, Choose;
  }

  /** Purging a cache that holds bytes leaves them on the books. */
  lemma StalePurge(max: nat, id: string, size: nat, now: int, deleted: string -> bool)
    requires size > 0
    ensures exists c :: Reached(max, c) && Good(c) && !Good(Step(max, c, Purge(true)).1)
  {
    hide Reached, Good;
    ReachedEmpty(max);
    FilledReached(max, EMPTY, id, 0, now, size, deleted);
    StepGoodIff(max, Filled(EMPTY, id, 0, now, size), Purge(true));
  }

  // ---------------------------------------------------------------------------
  // The cache object
  // ---------------------------------------------------------------------------

  class DiskCache {
    const maxCache: nat
    var totalSize: nat
    var totalAccessors: nat
    var map_: seq<Slot>
    var open: seq<Stream>

    function View(): Cache
      reads this
    {
      Cache(map_, open, totalSize, totalAccessors)
    }

    ghost predicate Valid()
      reads this
    {
      Good(View())
    }

    constructor (maxCache: nat)
      ensures Valid() && this.maxCache == maxCache && View() == EMPTY
    {
      this.maxCache := maxCache;
      totalSize, totalAccessors, map_, open := 0, 0, [], [];
    }

    /** The two scanning loops of `CheckLimit`. */
    method ChooseVictim() returns (choice: Choice)
      ensures choice == Choose(map_)
    {
      hide Oldest, FirstDeletable;
      var c := 0;
      while c < |map_| && !Deletable(map_[c].entry)
        invariant 0 <= c <= |map_| && forall j :: 0 <= j < c ==> !Deletable(map_[j].entry)
      {
        c := c + 1;
      }
      FirstIs(map_, c);
      if c == |map_| {
        return AllLocked;
      }
      var oldest := c + 1;
      if oldest == |map_| {
        return PastTheEnd;
      }
      var it := c;
      while it < |map_|
        invariant c <= it <= |map_| && oldest < |map_|
        invariant Oldest(map_, c, c + 1) == Oldest(map_, it, oldest)
      {
        OldestStep(map_, it, oldest);
        if map_[it].entry.lastModified < map_[oldest].entry.lastModified {
          oldest := it;
        }
        it := it + 1;
      }
      OldestStep(map_, it, oldest);
      return Victim(oldest);
    }

    method DeleteResource(id: string, gone: bool) returns (r: bool)
      requires Valid()
      modifies this`map_, this`totalSize
      ensures Valid() && (if r then Granted else Refused, View()) == AfterDelete(old(View()), Delete(id, gone))
    {
      hide Good;
      DeleteGood(View(), Delete(id, gone));
      var i := Find(map_, id);
      if i == |map_| {
        return true;
      }
      if !Deletable(map_[i].entry) {
        return false;
      }
      BookedSize(View(), i);
      totalSize := totalSize - map_[i].entry.size;
      map_ := map_[..i] + map_[i + 1..];
      return gone;
    }

    /** `CheckLimit`, loop and all. */
    method CheckLimit(deleted: string -> bool) returns (r: Verdict)
      requires Valid()
      modifies this`map_, this`totalSize
      ensures Valid() && (r, View()) == Limited(old(View()), maxCache, deleted)
    {
      hide SumSize, SumAccessors, Consistent, Evict, Choose;
      while totalSize > maxCache
        invariant Valid() && open == old(open) && totalAccessors == old(totalAccessors)
        invariant SumSize(old(map_)) <= old(totalSize) && SumSize(map_) <= totalSize
        invariant Evict(old(map_), old(totalSize), maxCache, deleted) == Evict(map_, totalSize, maxCache, deleted)
        decreases |map_|
      {
        EvictStep(map_, totalSize, maxCache, deleted);
        var choice := ChooseVictim();
        if choice == AllLocked { return Refused; }
        if choice == PastTheEnd { return Undefined; }
        VictimIn(map_, choice);
        FindInGood(View(), choice.at);
        var id := map_[choice.at].id;
        var gone := DeleteResource(id, deleted(id));
        if !gone { return Refused; }
      }
      EvictStep(map_, totalSize, maxCache, deleted);
      return Granted;
    }

    /** `GetOrCreateEntry(id, true)`; `at` is where the key order puts a new node. */
    method GetOrCreateEntry(id: string, at: nat, now: int) returns (i: nat)
      requires Valid() && at <= |map_|
      modifies this`map_
      ensures Valid() && map_ == Ensured(old(map_), id, at, now)
      ensures Has(map_, id) && i == Find(map_, id)
    {
      hide Good;
      EnsuredGood(View(), id, at, now);
      i := Find(map_, id);
      if i == |map_| {
        map_ := map_[..at] + [Fresh(id, now)] + map_[at..];
        FindInGood(View(), at);
        i := at;
      }
    }

    method LockResource(id: string, at: nat, now: int, deleted: string -> bool) returns (r: Verdict)
      requires Valid() && at <= |map_|
      modifies this`map_, this`totalSize
      ensures Valid() && (r, View()) == AfterLock(maxCache, old(View()), Lock(id, at, now, deleted))
    {
      hide Good, Limited, Ensured;
      LockGood(maxCache, View(), Lock(id, at, now, deleted));
      EnsuredGood(View(), id, at, now);
      var i := GetOrCreateEntry(id, at, now);
      var e := map_[i].entry;
      if e.lockState == LS_LOCKED {
        return Refused;
      }
      if e.lockState == LS_UNLOCKED && e.accessors > 0 {
        return Refused;
      }
      if totalSize > maxCache {
        ghost var before := View();
        var limit := CheckLimit(deleted);
        if limit != Granted {
          return limit;
        }
        i := Find(map_, id);
        if i == |map_| {
          return Undefined;
        }
        SurvivorSame(before, maxCache, deleted, id);
      } else {
        WithinLimit(View(), maxCache, deleted);
      }
      map_ := map_[i := Slot(id, map_[i].entry.(lockState := LS_LOCKED))];
      return Granted;
    }

    method UnlockResource(id: string, now: int, deleted: string -> bool) returns (r: Verdict)
      requires Valid()
      modifies this`map_, this`totalSize
      ensures Valid() && (r, View()) == AfterUnlock(maxCache, old(View()), Unlock(id, now, deleted))
    {
      hide Good, Limited;
      UnlockGood(maxCache, View(), Unlock(id, now, deleted));
      var i := Find(map_, id);
      if i == |map_| {
        return Undefined;
      }
      var e := map_[i].entry;
      if e.lockState != LS_LOCKED {
        return Refused;
      }
      if e.accessors > 0 {
        map_ := map_[i := Slot(id, e.(lockState := LS_UNLOCKING))];
        return Granted;
      }
      UnlockedGood(View(), id, now);
      map_ := map_[i := Slot(id, e.(lockState := LS_UNLOCKED, lastModified := now))];
      var limit := CheckLimit(deleted);
      return if limit == Undefined then Undefined else Granted;
    }

    method WriteResource(id: string, index: nat, fileSize: nat, opens: bool) returns (r: Verdict)
      requires Valid()
      modifies this
      ensures Valid() && (r, View()) == AfterWrite(old(View()), Write(id, index, fileSize, opens))
    {
      hide Good;
      WriteGood(View(), Write(id, index, fileSize, opens));
      var i := Find(map_, id);
      if i == |map_| {
        return Undefined;
      }
      var e := map_[i].entry;
      if e.lockState != LS_LOCKED {
        return Refused;
      }
      var previous := if fileSize > e.size then e.size else fileSize;
      if !opens {
        return Refused;
      }
      BookedSize(View(), i);
      map_ := map_[i := Slot(id, e.(streams := if index + 1 > e.streams then index + 1 else e.streams,
                                    size := e.size - previous, accessors := e.accessors + 1))];
      totalSize := totalSize - previous;
      totalAccessors := totalAccessors + 1;
      open := open + [Stream(id, index, true)];
      return Granted;
    }

    method ReadResource(id: string, index: nat, opens: bool) returns (r: Verdict)
      requires Valid()
      modifies this
      ensures Valid() && (r, View()) == AfterRead(old(View()), Read(id, index, opens))
    {
      hide Good;
      ReadGood(View(), Read(id, index, opens));
      var i := Find(map_, id);
      if i == |map_| {
        return Undefined;
      }
      var e := map_[i].entry;
      if e.lockState != LS_UNLOCKED || index >= e.streams || !opens {
        return Refused;
      }
      map_ := map_[i := Slot(id, e.(accessors := e.accessors + 1))];
      totalAccessors := totalAccessors + 1;
      open := open + [Stream(id, index, false)];
      return Granted;
    }

    /** `ReleaseResource`, run by the destructor of the k-th open stream. */
    method ReleaseResource(k: nat, fileSize: nat, now: int, deleted: string -> bool) returns (r: Verdict)
      requires Valid() && k < |open|
      modifies this
      ensures Valid() && (r, View()) == AfterRelease(maxCache, old(View()), Release(k, fileSize, now, deleted))
    {
      hide Good, Limited;
      ReleaseGood(maxCache, View(), Release(k, fileSize, now, deleted));
      OpenHasEntry(View(), k);
      ClosedGood(View(), k, fileSize, now);
      var id := open[k].id;
      var i := Find(map_, id);
      var e := map_[i].entry;
      var x := e.(accessors := e.accessors - 1);
      totalAccessors := totalAccessors - 1;
      open := open[..k] + open[k + 1..];
      var last := false;
      if e.lockState != LS_UNLOCKED {
        x := x.(size := x.size + fileSize);
        totalSize := totalSize + fileSize;
        if e.lockState == LS_UNLOCKING && x.accessors == 0 {
          x := x.(lastModified := now, lockState := LS_UNLOCKED);
          last := true;
        }
      }
      map_ := map_[i := Slot(id, x)];
      r := Granted;
      if last {
        var limit := CheckLimit(deleted);
        r := if limit == Undefined then Undefined else Granted;
      }
    }

    method Purge(purged: bool) returns (r: bool)
      requires Valid()
      modifies this`map_
      ensures (if r then Granted else Refused, View()) == AfterPurge(old(View()), Op.Purge(purged))
      ensures Valid() <==> !Forgets(old(View()), Op.Purge(purged))
    {
      hide Good;
      PurgeGoodIff(View(), Op.Purge(purged));
      if totalAccessors > 0 || !purged {
        return false;
      }
      map_ := [];
      return true;
    }
  }

  lemma WithinLimit(c: Cache, max: nat, deleted: string -> bool)
    requires Good(c) && c.totalSize <= max
    ensures Limited(c, max, deleted) == (Granted, c)
  {
    hide SumSize, SumAccessors, Consistent;
  }

  lemma UnlockedGood(c: Cache, id: string, now: int)
    requires Good(c) && Has(c.slots, id)
    requires EntryOf(c.slots, id).lockState == LS_LOCKED && EntryOf(c.slots, id).accessors == 0
    ensures var x := EntryOf(c.slots, id).(lockState := LS_UNLOCKED, lastModified := now);
      Good(c.(slots := Put(c.slots, id, x)))
  {
    hide SumSize, SumAccessors, Consistent, Count;
    EntryAgrees(c, id);
    NoneOpen(c.open, id);
    PutGood(c, id, EntryOf(c.slots, id).(lockState := LS_UNLOCKED, lastModified := now));
  }

  lemma OldestStep(s: seq<Slot>, it: nat, oldest: nat)
    requires it <= |s| && oldest < |s|
    ensures Oldest(s, it, oldest)
         == if it == |s| then oldest
            else Oldest(s, it + 1, if s[it].entry.lastModified < s[oldest].entry.lastModified then it else oldest)
  {
  }

  lemma {:induction false} FirstIs(s: seq<Slot>, c: nat)
    requires c <= |s| && (forall j :: 0 <= j < c ==> !Deletable(s[j].entry))
    requires c < |s| ==> Deletable(s[c].entry)
    ensures FirstDeletable(s) == c
  {
  }

  lemma BookedSize(c: Cache, i: nat)
    requires Good(c) && i < |c.slots|
    ensures c.slots[i].entry.size <= c.totalSize
  {
    hide SumSize, SumAccessors;
    SumSplit(c.slots, i);
  }

  lemma VictimIn(s: seq<Slot>, choice: Choice)
    requires choice == Choose(s)
    ensures choice.Victim? ==> choice.at < |s|
  {
  }

  lemma FindInGood(c: Cache, i: nat)
    requires Good(c) && i < |c.slots|
    ensures Has(c.slots, c.slots[i].id) && Find(c.slots, c.slots[i].id) == i
  {
    hide SumSize, SumAccessors, Agrees;
    FindAt(c.slots, i);
  }
}
