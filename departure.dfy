// The group loop of the hub's unregister case, as pure functions.
//
// The loop ranges over the group's slice while it removes matching members
// from that same slice with `append(s[:k], s[k+1:]...)`. The range was
// evaluated once: it runs over the original length and reads the shared
// backing array, whose elements the removals shift left. `LoopFrom` follows
// that execution step by step on a sequence standing for the backing array;
// `Intended` is the two-phase behaviour the loop was evidently meant to have.
module Departure {
  import opened ChatClient

  /** What the loop ends with: the slice-bounds panic, or the members that were
      sent a notice (in sending order, once per notice) and the group's new slice. */
  datatype Outcome = OutOfRange | Done(notified: seq<Client>, remaining: seq<Client>)

  predicate Distinct(s: seq<Client>)
  {
    forall i, j :: 0 <= i < j < |s| ==> s[i] != s[j]
  }

  /** The backing array after `append(s[:k], s[k+1:]...)` on a slice of length
      `len`: the elements after `k` move one place left, and the slot at
      `len - 1` and those past it keep what they held. */
  function Shifted(buf: seq<Client>, k: nat, len: nat): (r: seq<Client>)
    requires k < len <= |buf|
    ensures |r| == |buf|
    ensures forall j :: 0 <= j < k ==> r[j] == buf[j]
    ensures forall j :: k <= j < len - 1 ==> r[j] == buf[j + 1]
    ensures forall j :: len - 1 <= j < |buf| ==> r[j] == buf[j]
    ensures r[..len - 1] == buf[..k] + buf[k + 1..len]
  {
    buf[..k] + buf[k + 1..len] + buf[len - 1..]
  }

  /** The loop from range index `k` on, with backing array `buf`, the slice's
      current length `len` and the notices sent so far. A member named `x` is
      removed; removing it at an index that is no longer inside the slice is
      Go's "slice bounds out of range" panic. */
  function LoopFrom(buf: seq<Client>, len: nat, k: nat, x: string, notified: seq<Client>): Outcome
    requires len <= |buf|
    decreases |buf| - k
  {
    if k >= |buf| then Done(notified, buf[..len])
    else if buf[k].name != x then LoopFrom(buf, len, k + 1, x, notified + [buf[k]])
    else if len < k + 1 then OutOfRange
    else LoopFrom(Shifted(buf, k, len), len - 1, k + 1, x, notified)
  }

  /** The loop as written, on group slice `s`, for a departing client named
      `x`: the slice never grows, and at most one notice is sent per range index. */
  function AsWritten(s: seq<Client>, x: string): (r: Outcome)
    ensures r.Done? ==> |r.remaining| <= |s| && |r.notified| <= |s|
  {
    LoopBounds(s, |s|, 0, x, []);
    LoopFrom(s, |s|, 0, x, [])
  }

  /** From range index `k` on, the slice never grows and each remaining
      index sends at most one notice. */
  lemma {:induction false} LoopBounds(buf: seq<Client>, len: nat, k: nat, x: string, notified: seq<Client>)
    requires len <= |buf| && k <= |buf|
    ensures LoopFrom(buf, len, k, x, notified).Done? ==>
      |LoopFrom(buf, len, k, x, notified).remaining| <= len &&
      |LoopFrom(buf, len, k, x, notified).notified| <= |notified| + |buf| - k
    decreases |buf| - k
  {
    if k < |buf| {
      if buf[k].name != x {
        LoopBounds(buf, len, k + 1, x, notified + [buf[k]]);
      } else if len >= k + 1 {
        LoopBounds(Shifted(buf, k, len), len - 1, k + 1, x, notified);
      }
    }
  }

  /** The members whose name is not `x`, in their order. */
  function Others(s: seq<Client>, x: string): (r: seq<Client>)
    ensures |r| <= |s|
  {
    if s == [] then []
    else if s[0].name != x then [s[0]] + Others(s[1..], x)
    else Others(s[1..], x)
  }

  /** The evidently intended loop: take the members first, notify every one
      not named `x` once, then rebuild the slice without the ones named `x`. */
  function Intended(s: seq<Client>, x: string): Outcome
  {
    Done(Others(s, x), Others(s, x))
  }

  // ---- properties of the intended loop ----

  /** `Others` keeps every member not named `x` as often as it occurs and drops
      every member named `x`. */
  lemma {:induction false} OthersCount(s: seq<Client>, x: string, m: Client)
    ensures multiset(Others(s, x))[m] == if m.name != x then multiset(s)[m] else 0
  {
    if s != [] {
      OthersCount(s[1..], x, m);
      assert s == [s[0]] + s[1..];
    }
  }

  /** `Others` keeps only members of `s` not named `x`, and it is all of `s`
      exactly when no member is named `x`. */
  lemma {:induction false} OthersMembership(s: seq<Client>, x: string)
    ensures forall m :: m in Others(s, x) ==> m in s && m.name != x
    ensures s == Others(s, x) <==> forall j :: 0 <= j < |s| ==> s[j].name != x
  {
    if s != [] {
      OthersMembership(s[1..], x);
      if s[0].name == x {
        assert |Others(s, x)| < |s|;
      } else {
        forall j | 0 <= j < |s| && (forall i :: 0 <= i < |s| - 1 ==> s[1..][i].name != x)
          ensures s[j].name != x
        {
          if j > 0 { assert s[j] == s[1..][j - 1]; }
        }
      }
    }
  }

  /** With members all distinct, the intended loop never panics, sends exactly
      one notice to each member not named `x` and none to any other client,
      and leaves exactly the members not named `x`. */
  lemma IntendedNotifiesEachOnce(s: seq<Client>, x: string, m: Client)
    requires Distinct(s)
    ensures Intended(s, x).Done?
    ensures multiset(Intended(s, x).notified)[m] == if m in s && m.name != x then 1 else 0
    ensures m in Intended(s, x).remaining <==> m in s && m.name != x
  {
    OthersCount(s, x, m);
    DistinctCount(s, m);
  }

  // ---- properties of the loop as written ----

  /** A stretch of members without the name `x` is notified in order. */
  lemma {:induction false} SkipUnmatched(buf: seq<Client>, len: nat, k: nat, j: nat, x: string, acc: seq<Client>)
    requires len <= |buf| && k <= j <= |buf|
    requires forall p :: k <= p < j ==> buf[p].name != x
    ensures LoopFrom(buf, len, k, x, acc) == LoopFrom(buf, len, j, x, acc + buf[k..j])
    decreases j - k
  {
    if k < j {
      SkipUnmatched(buf, len, k + 1, j, x, acc + [buf[k]]);
      assert acc + [buf[k]] + buf[k + 1..j] == acc + buf[k..j];
    } else {
      assert acc + buf[k..j] == acc;
    }
  }

  /** When no member is named `x`, the loop notifies every member once, in
      order, and leaves the group as it was: it agrees with the intended loop. */
  lemma NameAbsent(s: seq<Client>, x: string)
    requires forall j :: 0 <= j < |s| ==> s[j].name != x
    ensures AsWritten(s, x) == Done(s, s)
    ensures AsWritten(s, x) == Intended(s, x)
  {
    SkipUnmatched(s, |s|, 0, |s|, x, []);
    assert s[..|s|] == s && [] + s[0..|s|] == s;
    OthersMembership(s, x);
  }

  /** The departing name held by exactly one member, at index `i` of `n`: the
      group loses that member and keeps the others' order. When `i >= n - 2`
      every other member is notified once, in order. When `i <= n - 3` the
      member after it is skipped and the last member is notified twice. */
  lemma {:induction false} SoleHolder(s: seq<Client>, i: nat, x: string)
    requires i < |s| && s[i].name == x
    requires forall j :: 0 <= j < |s| && j != i ==> s[j].name != x
    ensures AsWritten(s, x).Done?
    ensures AsWritten(s, x).remaining == s[..i] + s[i + 1..]
    ensures i >= |s| - 2 ==> AsWritten(s, x).notified == s[..i] + s[i + 1..]
    ensures i <= |s| - 3 ==> AsWritten(s, x).notified == s[..i] + s[i + 2..] + [s[|s| - 1]]
  {
    var n := |s|;
    var b := Shifted(s, i, n);
    SoleHolderRun(s, i, x);
    if i == n - 1 {
      assert b[i + 1..n] == [] && s[i + 1..] == [];
    } else if i == n - 2 {
      assert b[i + 1..n] == [s[n - 1]] == s[i + 1..];
    } else {
      assert b[i + 1..n] == s[i + 2..] + [s[n - 1]];
    }
  }

  /** The run behind `SoleHolder`: the members before `i` are notified, the
      holder is removed, and the rest of the range reads the shifted array. */
  lemma {:induction false} SoleHolderRun(s: seq<Client>, i: nat, x: string)
    requires i < |s| && s[i].name == x
    requires forall j :: 0 <= j < |s| && j != i ==> s[j].name != x
    ensures AsWritten(s, x) == Done(s[..i] + Shifted(s, i, |s|)[i + 1..], s[..i] + s[i + 1..])
  {
    var n := |s|;
    SkipUnmatched(s, n, 0, i, x, []);
    assert [] + s[0..i] == s[..i];
    var b := Shifted(s, i, n);
    assert LoopFrom(s, n, i, x, s[..i]) == LoopFrom(b, n - 1, i + 1, x, s[..i]);
    forall p | i + 1 <= p < n ensures b[p].name != x {
      if p < n - 1 { assert b[p] == s[p + 1]; } else { assert b[p] == s[n - 1]; }
    }
    SkipUnmatched(b, n - 1, i + 1, n, x, s[..i]);
    assert b[..n - 1] == s[..i] + s[i + 1..];
  }

  /** Where the sole holder of the name sits at one of the last two places, the
      loop as written does what was intended. */
  lemma LateHolderAsIntended(s: seq<Client>, i: nat, x: string)
    requires |s| - 2 <= i < |s| && s[i].name == x
    requires forall j :: 0 <= j < |s| && j != i ==> s[j].name != x
    ensures AsWritten(s, x) == Intended(s, x)
  {
    SoleHolder(s, i, x);
    OthersSplit(s, i, x);
  }

  /** Where the sole holder sits at `i <= n - 3` among distinct members, the
      member at `i + 1` gets no notice and the last member gets two, though
      the intended loop sends each of them one. */
  lemma EarlyHolderSkipsAndDoubles(s: seq<Client>, i: nat, x: string)
    requires Distinct(s)
    requires i <= |s| - 3 && s[i].name == x
    requires forall j :: 0 <= j < |s| && j != i ==> s[j].name != x
    ensures AsWritten(s, x).Done?
    ensures multiset(AsWritten(s, x).notified)[s[i + 1]] == 0
    ensures multiset(AsWritten(s, x).notified)[s[|s| - 1]] == 2
    ensures multiset(Intended(s, x).notified)[s[i + 1]] == 1
    ensures multiset(Intended(s, x).notified)[s[|s| - 1]] == 1
    ensures AsWritten(s, x).remaining == Intended(s, x).remaining
  {
    var n := |s|;
    SoleHolder(s, i, x);
    OthersSplit(s, i, x);
    var nt := s[..i] + s[i + 2..] + [s[n - 1]];
    assert s[i + 1] !in s[..i] && s[i + 1] !in s[i + 2..] && s[i + 1] != s[n - 1];
    assert s[n - 1] !in s[..i];
    assert s[i + 2..] == s[i + 2..n - 1] + [s[n - 1]];
    assert s[n - 1] !in s[i + 2..n - 1];
    IntendedNotifiesEachOnce(s, x, s[i + 1]);
    IntendedNotifiesEachOnce(s, x, s[n - 1]);
  }

  /** Once a removal has shortened the slice, a member named `x` in the last
      slot of the backing array is read again past the slice's end, and
      removing it panics. */
  lemma {:induction false} StaleLastPanics(buf: seq<Client>, len: nat, k: nat, x: string, acc: seq<Client>)
    requires len < |buf| && k < |buf| && buf[|buf| - 1].name == x
    ensures LoopFrom(buf, len, k, x, acc) == OutOfRange
    decreases |buf| - k
  {
    if k < |buf| - 1 {
      if buf[k].name != x {
        StaleLastPanics(buf, len, k + 1, x, acc + [buf[k]]);
      } else if len >= k + 1 {
        StaleLastPanics(Shifted(buf, k, len), len - 1, k + 1, x, acc);
      }
    }
  }

  /** Two members named `x`, one of them last (two connections that gave the
      same identity, say): the loop as written panics, where the intended loop
      removes both. */
  lemma SharedNameAtEndPanics(s: seq<Client>, i: nat, x: string)
    requires i < |s| - 1 && s[i].name == x && s[|s| - 1].name == x
    ensures AsWritten(s, x) == OutOfRange
    ensures Intended(s, x).Done? && s[i] !in Intended(s, x).remaining && s[|s| - 1] !in Intended(s, x).remaining
  {
    FirstRemovalThenPanics(s, 0, x, []);
    OthersCount(s, x, s[i]);
    OthersCount(s, x, s[|s| - 1]);
  }

  lemma {:induction false} FirstRemovalThenPanics(buf: seq<Client>, k: nat, x: string, acc: seq<Client>)
    requires k <= |buf| - 1 && buf[|buf| - 1].name == x
    requires exists p :: k <= p < |buf| - 1 && buf[p].name == x
    ensures LoopFrom(buf, |buf|, k, x, acc) == OutOfRange
    decreases |buf| - k
  {
    if buf[k].name != x {
      FirstRemovalThenPanics(buf, k + 1, x, acc + [buf[k]]);
    } else {
      StaleLastPanics(Shifted(buf, k, |buf|), |buf| - 1, k + 1, x, acc);
    }
  }

  /** Two adjacent members named `x` followed by a member `y` with another
      name: the second holder is skipped and stays in the group (with its
      queue closed, when it is the departing client), and `y` is notified
      twice; the intended loop removes both holders and notifies `y` once. */
  lemma AdjacentHoldersOneStays(a: Client, b: Client, y: Client, x: string)
    requires a.name == x && b.name == x && y.name != x
    ensures AsWritten([a, b, y], x) == Done([y, y], [b, y])
    ensures Intended([a, b, y], x) == Done([y], [y])
  {
    var s := [a, b, y];
    assert Shifted(s, 0, 3) == [b, y, y];
    assert LoopFrom(s, 3, 0, x, []) == LoopFrom([b, y, y], 2, 1, x, []);
    assert [b, y, y][1] == y && [] + [y] == [y] && [y] + [y] == [y, y];
    assert LoopFrom([b, y, y], 2, 1, x, []) == LoopFrom([b, y, y], 2, 2, x, [y]);
    assert LoopFrom([b, y, y], 2, 2, x, [y]) == LoopFrom([b, y, y], 2, 3, x, [y, y]);
    assert [b, y, y][..2] == [b, y];
    assert s[1..] == [b, y] && [b, y][1..] == [y] && [y][1..] == [];
    assert Others([y], x) == [y];
    assert Others([b, y], x) == [y];
  }

  /** Whatever the group, a loop that ends normally sends notices only to
      members not named `x`, and its new slice keeps every member not named
      `x` exactly as often as before and adds none. */
  lemma AsWrittenKeepsOthers(s: seq<Client>, x: string)
    ensures AsWritten(s, x).Done? ==>
      && (forall m :: m in AsWritten(s, x).notified ==> m in s && m.name != x)
      && multiset(AsWritten(s, x).remaining) <= multiset(s)
      && (forall m: Client :: m.name != x ==> multiset(AsWritten(s, x).remaining)[m] == multiset(s)[m])
  {
    assert s[..|s|] == s;
    LoopFromKeeps(s, |s|, 0, x, [], s);
  }

  lemma {:induction false} LoopFromKeeps(buf: seq<Client>, len: nat, k: nat, x: string, acc: seq<Client>, s: seq<Client>)
    requires len <= |buf|
    requires forall p :: 0 <= p < |buf| ==> buf[p] in s
    requires forall m :: m in acc ==> m in s && m.name != x
    requires multiset(buf[..len]) <= multiset(s)
    requires forall m: Client :: m.name != x ==> multiset(buf[..len])[m] == multiset(s)[m]
    ensures LoopFrom(buf, len, k, x, acc).Done? ==>
      && (forall m :: m in LoopFrom(buf, len, k, x, acc).notified ==> m in s && m.name != x)
      && multiset(LoopFrom(buf, len, k, x, acc).remaining) <= multiset(s)
      && (forall m: Client :: m.name != x ==> multiset(LoopFrom(buf, len, k, x, acc).remaining)[m] == multiset(s)[m])
    decreases |buf| - k
  {
    if k < |buf| {
      if buf[k].name != x {
        LoopFromKeeps(buf, len, k + 1, x, acc + [buf[k]], s);
      } else if len >= k + 1 {
        ShiftedKeeps(buf, k, len, x, s);
        LoopFromKeeps(Shifted(buf, k, len), len - 1, k + 1, x, acc, s);
      }
    }
  }

  // ---- helpers ----

  /** One removal takes the member named `x` at `k` out of the slice and
      nothing else. */
  lemma ShiftedKeeps(buf: seq<Client>, k: nat, len: nat, x: string, s: seq<Client>)
    requires k < len <= |buf| && buf[k].name == x
    requires forall p :: 0 <= p < |buf| ==> buf[p] in s
    requires multiset(buf[..len]) <= multiset(s)
    requires forall m: Client :: m.name != x ==> multiset(buf[..len])[m] == multiset(s)[m]
    ensures forall p :: 0 <= p < |buf| ==> Shifted(buf, k, len)[p] in s
    ensures multiset(Shifted(buf, k, len)[..len - 1]) <= multiset(s)
    ensures forall m: Client :: m.name != x ==> multiset(Shifted(buf, k, len)[..len - 1])[m] == multiset(s)[m]
  {
    var b := Shifted(buf, k, len);
    assert buf[..len] == buf[..k] + [buf[k]] + buf[k + 1..len];
    assert multiset(b[..len - 1]) == multiset(buf[..len]) - multiset{buf[k]};
    forall p | 0 <= p < |buf| ensures b[p] in s {
      if k <= p < len - 1 { assert b[p] == buf[p + 1]; }
    }
  }

  /** `Others` on a group where only index `i` holds the name `x`. */
  lemma OthersSplit(s: seq<Client>, i: nat, x: string)
    requires i < |s| && s[i].name == x
    requires forall j :: 0 <= j < |s| && j != i ==> s[j].name != x
    ensures Others(s, x) == s[..i] + s[i + 1..]
  {
    OthersAppend(s[..i], s[i..], x);
    assert s == s[..i] + s[i..];
    OthersMembership(s[..i], x);
    assert s[i..] == [s[i]] + s[i + 1..];
    OthersMembership(s[i + 1..], x);
  }

  lemma {:induction false} OthersAppend(s: seq<Client>, t: seq<Client>, x: string)
    ensures Others(s + t, x) == Others(s, x) + Others(t, x)
  {
    if s != [] {
      OthersAppend(s[1..], t, x);
      assert (s + t)[1..] == s[1..] + t;
    } else {
      assert s + t == t;
    }
  }

  /** Among distinct members, each client occurs at most once. */
  lemma {:induction false} DistinctCount(s: seq<Client>, m: Client)
    requires Distinct(s)
    ensures multiset(s)[m] == if m in s then 1 else 0
  {
    if s != [] {
      assert s == [s[0]] + s[1..];
      DistinctCount(s[1..], m);
    }
  }

  /** A sub-multiset of distinct members is distinct. */
  lemma DistinctSub(s: seq<Client>, r: seq<Client>)
    requires Distinct(s) && multiset(r) <= multiset(s)
    ensures Distinct(r)
  {
    forall i, j | 0 <= i < j < |r| ensures r[i] != r[j] {
      assert r == r[..j] + [r[j]] + r[j + 1..];
      assert r[i] in r[..j];
      DistinctCount(s, r[j]);
      assert multiset(r)[r[j]] >= multiset(r[..j])[r[j]] + 1;
      assert multiset(r)[r[j]] <= 1;
    }
  }
}
