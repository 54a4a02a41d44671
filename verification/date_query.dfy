/** The two halves of `getRecords`: the inclusive date window and the newest-first sort. */
module DateQuery {
  import opened Records

  /** `start <= date <= end`: both ends of the window are inclusive. */
  predicate InWindow(r: BloodRecord, start: int, end: int)
  {
    start <= r.entry.date <= end
  }

  /** Dates never increase from one position to a later one. */
  predicate NewestFirst(rs: seq<BloodRecord>)
  {
    forall i, j :: 0 <= i < j < |rs| ==> rs[i].entry.date >= rs[j].entry.date
  }

  /** The records of `rs` dated inside `[start, end]`. */
  function Window(rs: seq<BloodRecord>, start: int, end: int): (w: seq<BloodRecord>)
    ensures forall r :: r in w <==> r in rs && InWindow(r, start, end)
    ensures forall r :: multiset(w)[r] == if InWindow(r, start, end) then multiset(rs)[r] else 0
    ensures |w| <= |rs|
  {
    if rs == [] then []
    else
      assert rs == [rs[0]] + rs[1..];
      (if InWindow(rs[0], start, end) then [rs[0]] else []) + Window(rs[1..], start, end)
  }

  /** A record at least as new as every element of a newest-first sequence can head it. */
  lemma ConsNewestFirst(a: BloodRecord, t: seq<BloodRecord>)
    requires NewestFirst(t)
    requires forall x :: x in t ==> a.entry.date >= x.entry.date
    ensures NewestFirst([a] + t)
  {
    forall i, j | 0 <= i < j < |[a] + t|
      ensures ([a] + t)[i].entry.date >= ([a] + t)[j].entry.date
    {
      if i > 0 {
        assert ([a] + t)[i] == t[i - 1];
      }
      assert ([a] + t)[j] == t[j - 1];
    }
  }

  /** Everything in a rearrangement of a newest-first tail plus an older `r` is no newer
      than the head. */
  lemma HeadBoundsInsertion(r: BloodRecord, rs: seq<BloodRecord>, tail: seq<BloodRecord>)
    requires NewestFirst(rs) && rs != []
    requires r.entry.date < rs[0].entry.date
    requires multiset(tail) == multiset(rs[1..]) + multiset{r}
    ensures forall x :: x in tail ==> rs[0].entry.date >= x.entry.date
  {
    forall x | x in tail
      ensures rs[0].entry.date >= x.entry.date
    {
      assert x in multiset(tail);
      if x != r {
        assert x in multiset(rs[1..]);
        var k :| 0 <= k < |rs[1..]| && rs[1..][k] == x;
        assert rs[k + 1] == x;
      }
    }
  }

  /** Places `r` in a newest-first sequence, ahead of the records with the same date,
      which is where a stable sort puts an element that came before them. */
  function Insert(r: BloodRecord, rs: seq<BloodRecord>): (out: seq<BloodRecord>)
    requires NewestFirst(rs)
    ensures NewestFirst(out)
    ensures multiset(out) == multiset(rs) + multiset{r}
  {
    if rs == [] || r.entry.date >= rs[0].entry.date then
      ConsNewestFirst(r, rs);
      [r] + rs
    else
      var tail := Insert(r, rs[1..]);
      HeadBoundsInsertion(r, rs, tail);
      ConsNewestFirst(rs[0], tail);
      assert rs == [rs[0]] + rs[1..];
      [rs[0]] + tail
  }

  /** `records.sort((a, b) => b.date - a.date)`. */
  function SortNewestFirst(rs: seq<BloodRecord>): (out: seq<BloodRecord>)
    ensures NewestFirst(out)
    ensures multiset(out) == multiset(rs)
  {
    if rs == [] then []
    else
      assert rs == [rs[0]] + rs[1..];
      Insert(rs[0], SortNewestFirst(rs[1..]))
  }
}
