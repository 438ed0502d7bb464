/** swrender/Tokenizer.cpp and swrender/TokenManager.cpp: a set of uint32_t tokens kept as
    sorted runs, and the allocator of GL names on top of it. */
module Tokenizer {
  import opened Machine

  /** The tokens first, first+1, ..., first+length-1. */
  datatype Run = Run(first: int, length: int)

  /** The last uint32_t.  A run that contains it has an end that wraps to zero. */
  const LAST: int := 0xFFFF_FFFF

  /** A sum stored in a uint32_t. */
  function U32(x: int): (r: int)
    ensures 0 <= x < TWO32 ==> r == x
  {
    x % TWO32
  }

  /** The run's end as the source computes it. */
  function End(r: Run): int {
    U32(r.first + r.length)
  }

  /** The source's test for a run that holds the token. */
  predicate Covers(r: Run, token: int) {
    !(token < r.first) && !(token >= End(r))
  }

  predicate InRun(r: Run, token: int) {
    r.first <= token < r.first + r.length
  }

  ghost predicate Has(runs: seq<Run>, token: int) {
    exists i :: 0 <= i < |runs| && InRun(runs[i], token)
  }

  /** Runs are non-empty, end before the last uint32_t, and leave a gap between neighbours. */
  ghost predicate Sorted(runs: seq<Run>) {
    && (forall i :: 0 <= i < |runs| ==> 0 <= runs[i].first && 0 < runs[i].length && runs[i].first + runs[i].length <= LAST)
    && (forall i, j :: 0 <= i < j < |runs| ==> runs[i].first + runs[i].length < runs[j].first)
  }

  /** The runs before `index` end at or before the token, the others start after it. */
  ghost predicate Splits(runs: seq<Run>, index: int, token: int) {
    && 0 <= index <= |runs|
    && (forall i :: 0 <= i < index ==> runs[i].first + runs[i].length <= token)
    && (forall i :: index <= i < |runs| ==> token < runs[i].first)
  }

  lemma SplitsMeansFree(runs: seq<Run>, index: int, token: int)
    requires Sorted(runs) && Splits(runs, index, token)
    ensures !Has(runs, token)
  {
  }

  /** What _insertTokenAt makes of the runs: grow the previous run, and swallow the next one if
      they now touch; or grow the next run downward; or insert a run of one. */
  function Inserted(runs: seq<Run>, token: int, index: int): seq<Run>
    requires 0 <= index <= |runs|
  {
    if index >= 1 && runs[index - 1].first + runs[index - 1].length == token then
      var p := runs[index - 1];
      if index < |runs| && token + 1 == runs[index].first then
        runs[..index - 1] + [Run(p.first, p.length + 1 + runs[index].length)] + runs[index + 1..]
      else
        runs[index - 1 := Run(p.first, U32(p.length + 1))]
    else if index < |runs| && token + 1 == runs[index].first then
      runs[index := Run(runs[index].first - 1, runs[index].length + 1)]
    else
      runs[..index] + [Run(token, 1)] + runs[index..]
  }

  /** What release makes of the runs when run i holds the token: shrink it at an end, drop it
      when it becomes empty, or split it. */
  function Released(runs: seq<Run>, token: int, i: int): seq<Run>
    requires 0 <= i < |runs|
  {
    var r := runs[i];
    if token == r.first || token == r.first + r.length - 1 then
      if r.length == 1 then runs[..i] + runs[i + 1..]
      else runs[i := Run(if token == r.first then r.first + 1 else r.first, r.length - 1)]
    else
      runs[..i] + [Run(r.first, token - r.first), Run(token + 1, r.first + r.length - (token + 1))] + runs[i + 1..]
  }

  /** Membership looks at the parts of a sequence of runs separately. */
  lemma HasParts(a: seq<Run>, m: seq<Run>, b: seq<Run>, t: int)
    ensures Has(a + m + b, t) <==> Has(a, t) || Has(m, t) || Has(b, t)
  {
    var all := a + m + b;
    if Has(a, t) {
      var i :| 0 <= i < |a| && InRun(a[i], t);
      assert InRun(all[i], t);
    }
    if Has(m, t) {
      var i :| 0 <= i < |m| && InRun(m[i], t);
      assert InRun(all[|a| + i], t);
    }
    if Has(b, t) {
      var i :| 0 <= i < |b| && InRun(b[i], t);
      assert InRun(all[|a| + |m| + i], t);
    }
    if Has(all, t) {
      var i :| 0 <= i < |all| && InRun(all[i], t);
      assert i < |a| ==> InRun(a[i], t);
      assert |a| <= i < |a| + |m| ==> InRun(m[i - |a|], t);
      assert |a| + |m| <= i ==> InRun(b[i - |a| - |m|], t);
    }
  }

  /** Every run of a ends short of where every run of b starts. */
  ghost predicate Apart(a: seq<Run>, b: seq<Run>) {
    forall i, j :: 0 <= i < |a| && 0 <= j < |b| ==> a[i].first + a[i].length < b[j].first
  }

  lemma SortedJoin(a: seq<Run>, b: seq<Run>)
    ensures Sorted(a + b) <==> Sorted(a) && Sorted(b) && Apart(a, b)
  {
    var all := a + b;
    if Sorted(all) {
      forall i, j | 0 <= i < j < |a| ensures a[i].first + a[i].length < a[j].first {
        assert all[i] == a[i] && all[j] == a[j];
      }
      forall i | 0 <= i < |a| ensures 0 <= a[i].first && 0 < a[i].length && a[i].first + a[i].length <= LAST {
        assert all[i] == a[i];
      }
      forall i | 0 <= i < |b| ensures 0 <= b[i].first && 0 < b[i].length && b[i].first + b[i].length <= LAST {
        assert all[|a| + i] == b[i];
      }
      forall i, j | 0 <= i < j < |b| ensures b[i].first + b[i].length < b[j].first {
        assert all[|a| + i] == b[i] && all[|a| + j] == b[j];
      }
      forall i, j | 0 <= i < |a| && 0 <= j < |b| ensures a[i].first + a[i].length < b[j].first {
        assert all[i] == a[i] && all[|a| + j] == b[j];
      }
    }
  }

  lemma SortedParts(a: seq<Run>, m: seq<Run>, b: seq<Run>)
    ensures Sorted(a + m + b) <==> Sorted(a) && Sorted(m) && Sorted(b) && Apart(a, m) && Apart(m, b) && Apart(a, b)
  {
    SortedJoin(a + m, b);
    SortedJoin(a, m);
    if Apart(a + m, b) {
      forall i, j | 0 <= i < |a| && 0 <= j < |b| ensures a[i].first + a[i].length < b[j].first {
        assert (a + m)[i] == a[i];
      }
      forall i, j | 0 <= i < |m| && 0 <= j < |b| ensures m[i].first + m[i].length < b[j].first {
        assert (a + m)[|a| + i] == m[i];
      }
    }
  }

  predicate JoinsPrev(runs: seq<Run>, token: int, index: int) {
    1 <= index <= |runs| && runs[index - 1].first + runs[index - 1].length == token
  }

  predicate JoinsNext(runs: seq<Run>, token: int, index: int) {
    0 <= index < |runs| && token + 1 == runs[index].first
  }

  /** The one run that takes the place of the runs the token touches. */
  function Joined(runs: seq<Run>, token: int, index: int): (r: Run)
    requires 0 <= index <= |runs|
  {
    var first := if JoinsPrev(runs, token, index) then runs[index - 1].first else token;
    var end := if JoinsNext(runs, token, index) then runs[index].first + runs[index].length else token + 1;
    Run(first, end - first)
  }

  function Low(runs: seq<Run>, token: int, index: int): int {
    if JoinsPrev(runs, token, index) then index - 1 else index
  }

  function High(runs: seq<Run>, token: int, index: int): int {
    if JoinsNext(runs, token, index) then index + 1 else index
  }

  /** Inserting a free token other than the last uint32_t adds exactly it. */
  lemma InsertedAdds(runs: seq<Run>, token: int, index: int)
    requires Sorted(runs) && 0 <= token < LAST && Splits(runs, index, token)
    ensures Sorted(Inserted(runs, token, index))
    ensures forall t :: Has(Inserted(runs, token, index), t) <==> Has(runs, t) || t == token
  {
    var lo, hi := Low(runs, token, index), High(runs, token, index);
    var m := [Joined(runs, token, index)];
    InsertedForm(runs, token, index);
    InsertedSorted(runs, token, index, lo, hi);
    Cut(runs, lo, hi);
    forall t
      ensures Has(runs[..lo] + m + runs[hi..], t) <==> Has(runs, t) || t == token
    {
      HasParts(runs[..lo], runs[lo..hi], runs[hi..], t);
      HasParts(runs[..lo], m, runs[hi..], t);
      MiddleHas(runs, token, index, t);
    }
  }

  lemma Cut(runs: seq<Run>, lo: int, hi: int)
    requires 0 <= lo <= hi <= |runs|
    ensures runs[..lo] + runs[lo..hi] + runs[hi..] == runs
  {
  }

  lemma InsertedForm(runs: seq<Run>, token: int, index: int)
    requires Sorted(runs) && 0 <= index <= |runs| && 0 <= token < LAST
    ensures Inserted(runs, token, index)
         == runs[..Low(runs, token, index)] + [Joined(runs, token, index)] + runs[High(runs, token, index)..]
  {
    var grown := Joined(runs, token, index);
    if JoinsPrev(runs, token, index) {
      if !JoinsNext(runs, token, index) {
        assert grown == Run(runs[index - 1].first, runs[index - 1].length + 1);
        Updated(runs, index - 1, grown);
      } else {
        assert grown == Run(runs[index - 1].first, runs[index - 1].length + 1 + runs[index].length);
      }
    } else if JoinsNext(runs, token, index) {
      assert grown == Run(runs[index].first - 1, runs[index].length + 1);
      Updated(runs, index, grown);
    } else {
      assert grown == Run(token, 1);
    }
  }

  lemma Updated(runs: seq<Run>, k: int, r: Run)
    requires 0 <= k < |runs|
    ensures runs[k := r] == runs[..k] + [r] + runs[k + 1..]
  {
  }

  lemma InsertedSorted(runs: seq<Run>, token: int, index: int, lo: int, hi: int)
    requires Sorted(runs) && 0 <= token < LAST && Splits(runs, index, token)
    requires lo == Low(runs, token, index) && hi == High(runs, token, index)
    ensures Sorted(runs[..lo] + [Joined(runs, token, index)] + runs[hi..])
  {
    Cut(runs, lo, hi);
    SortedParts(runs[..lo], runs[lo..hi], runs[hi..]);
    SortedParts(runs[..lo], [Joined(runs, token, index)], runs[hi..]);
    JoinedFits(runs, token, index);
    JoinedApart(runs, token, index, lo, hi);
  }

  lemma JoinedFits(runs: seq<Run>, token: int, index: int)
    requires Sorted(runs) && 0 <= token < LAST && Splits(runs, index, token)
    ensures Sorted([Joined(runs, token, index)])
  {
    assert [Joined(runs, token, index)][0] == Joined(runs, token, index);
  }

  lemma JoinedApart(runs: seq<Run>, token: int, index: int, lo: int, hi: int)
    requires Sorted(runs) && 0 <= token < LAST && Splits(runs, index, token)
    requires lo == Low(runs, token, index) && hi == High(runs, token, index)
    ensures Apart(runs[..lo], [Joined(runs, token, index)]) && Apart([Joined(runs, token, index)], runs[hi..])
  {
  }

  lemma MiddleHas(runs: seq<Run>, token: int, index: int, t: int)
    requires Sorted(runs) && 0 <= index <= |runs|
    ensures Has([Joined(runs, token, index)], t)
       <==> Has(runs[Low(runs, token, index)..High(runs, token, index)], t) || t == token
  {
    var lo, hi := Low(runs, token, index), High(runs, token, index);
    var m, before := [Joined(runs, token, index)], runs[lo..hi];
    if lo < index {
      assert before[0] == runs[lo];
    }
    if index < hi {
      assert before[index - lo] == runs[index];
    }
    if Has(m, t) {
      assert InRun(m[0], t);
      assert lo < index && t < token ==> InRun(before[0], t);
      assert hi > index && t > token ==> InRun(before[index - lo], t);
    }
    if Has(before, t) || t == token {
      assert InRun(m[0], t);
    }
  }

  /** Releasing a held token removes exactly it. */
  lemma ReleasedRemoves(runs: seq<Run>, token: int, k: int)
    requires Sorted(runs) && 0 <= k < |runs| && InRun(runs[k], token)
    ensures Sorted(Released(runs, token, k))
    ensures forall t :: Has(Released(runs, token, k), t) <==> Has(runs, t) && t != token
  {
    var a, m, b := runs[..k], [runs[k]], runs[k + 1..];
    var m' := ReleasedForm(runs, token, k);
    assert runs == a + m + b;
    RestSorted(a, runs[k], b, token);
    forall t
      ensures Has(a + m' + b, t) <==> Has(runs, t) && t != token
    {
      HasParts(a, m, b, t);
      HasParts(a, m', b, t);
      RestHas(runs[k], token, m', t);
      if Has(a, t) || Has(b, t) {
        NotBeside(a, runs[k], b, token);
      }
    }
  }

  lemma NotBeside(a: seq<Run>, r: Run, b: seq<Run>, token: int)
    requires InRun(r, token) && Sorted(a + [r] + b)
    ensures !Has(a, token) && !Has(b, token)
  {
    SortedParts(a, [r], b);
    assert [r][0] == r;
  }

  /** What is left of a run r without the token. */
  function Rest(r: Run, token: int): seq<Run> {
    var low, high := Run(r.first, token - r.first), Run(token + 1, r.first + r.length - (token + 1));
    (if low.length == 0 then [] else [low]) + (if high.length == 0 then [] else [high])
  }

  lemma RestSorted(a: seq<Run>, r: Run, b: seq<Run>, token: int)
    requires InRun(r, token) && Sorted(a + [r] + b)
    ensures Sorted(a + Rest(r, token) + b)
  {
    SortedParts(a, [r], b);
    SortedParts(a, Rest(r, token), b);
    RestApart(a, r, b, token);
  }

  lemma RestApart(a: seq<Run>, r: Run, b: seq<Run>, token: int)
    requires InRun(r, token) && Sorted([r]) && Apart(a, [r]) && Apart([r], b)
    ensures Sorted(Rest(r, token)) && Apart(a, Rest(r, token)) && Apart(Rest(r, token), b)
  {
    assert [r][0] == r;
  }

  lemma ReleasedForm(runs: seq<Run>, token: int, k: int) returns (m: seq<Run>)
    requires 0 <= k < |runs| && InRun(runs[k], token)
    ensures m == Rest(runs[k], token)
    ensures Released(runs, token, k) == runs[..k] + m + runs[k + 1..]
  {
    m := Rest(runs[k], token);
  }

  lemma RestHas(r: Run, token: int, m: seq<Run>, t: int)
    requires InRun(r, token) && m == Rest(r, token)
    ensures Has(m, t) <==> Has([r], t) && t != token
  {
    if Has([r], t) && t != token {
      assert InRun([r][0], t);
      assert t < token ==> InRun(m[0], t);
      assert t > token ==> InRun(m[|m| - 1], t);
    }
    if Has(m, t) {
      assert InRun([r][0], t);
    }
  }

  /** The last uint32_t is the one token that cannot be kept: the run that takes it has an end
      that wraps to zero, so the search finds neither it nor any other token of its run. */
  lemma LastTokenLost(runs: seq<Run>, t: int)
    requires Sorted(runs) && 0 <= t <= LAST
    ensures var after := Inserted(runs, LAST, |runs|);
            && !Sorted(after)
            && !Covers(after[|after| - 1], t)
            && (forall i :: 0 <= i < |after| - 1 ==> after[i] == runs[i])
  {
    var after := Inserted(runs, LAST, |runs|);
    assert End(after[|after| - 1]) == 0;
    assert var r := after[|after| - 1]; r.length <= 0 || r.first + r.length > LAST;
  }

  datatype Status = NoError | BadValue | NameNotFound

  class Tokenizer {
    var runs: seq<Run>

    ghost predicate Valid()
      reads this
    {
      Sorted(runs)
    }

    /** The set of tokens in use. */
    ghost function Tokens(): (s: set<int>)
      reads this
    {
      set t | 0 <= t < LAST && Has(runs, t)
    }

    constructor ()
      ensures Valid() && Tokens() == {}
    {
      runs := [];
    }

    /** Binary search: the run that holds the token, or where a run for it belongs. */
    method IndexOrderOf(token: int) returns (found: bool, order: int)
      requires Valid() && 0 <= token <= LAST
      ensures found <==> Has(runs, token)
      ensures if found then 0 <= order < |runs| && InRun(runs[order], token) else Splits(runs, order, token)
    {
      var l, h := 0, |runs| - 1;
      while l <= h
        invariant 0 <= l <= h + 1 <= |runs|
        invariant forall i :: 0 <= i < l ==> runs[i].first + runs[i].length <= token
        invariant forall i :: h < i < |runs| ==> token < runs[i].first
      {
        var mid := l + (h - l) / 2;
        var curr := runs[mid];
        var c := 0;
        if token < curr.first {
          c := 1;
        } else if token >= End(curr) {
          c := -1;
        }
        if c == 0 {
          return true, mid;
        } else if c < 0 {
          l := mid + 1;
        } else {
          h := mid - 1;
        }
      }
      SplitsMeansFree(runs, l, token);
      return false, l;
    }

    method IsAcquired(token: int) returns (held: bool)
      requires Valid() && 0 <= token <= LAST
      ensures held <==> token in Tokens()
    {
      var order;
      held, order := IndexOrderOf(token);
    }

    method InsertTokenAt(token: int, index: int)
      requires Valid() && 0 <= token <= LAST && Splits(runs, index, token)
      modifies this
      ensures runs == Inserted(old(runs), token, index)
    {
      var c := |runs|;
      if index >= 1 {
        var p := runs[index - 1];
        if End(p) == token {
          runs := runs[index - 1 := Run(p.first, U32(p.length + 1))];
          if index < c {
            var n := runs[index];
            if U32(token + 1) == n.first {
              runs := runs[index - 1 := Run(p.first, U32(U32(p.length + 1) + n.length))];
              runs := runs[..index] + runs[index + 1..];
            }
          }
          return;
        }
      }
      if index < c {
        var n := runs[index];
        if U32(token + 1) == n.first {
          runs := runs[index := Run(n.first - 1, U32(n.length + 1))];
          return;
        }
      }
      runs := runs[..index] + [Run(token, 1)] + runs[index..];
    }

    /** Takes the least free token.  Only when nothing below the last uint32_t is free does the
        source hand that one out, and then it loses its runs. */
    method Acquire() returns (token: int)
      requires Valid()
      modifies this
      ensures 0 <= token <= LAST && token !in old(Tokens())
      ensures forall t :: 0 <= t < token ==> t in old(Tokens())
      ensures Valid() <==> token != LAST
      ensures token != LAST ==> Tokens() == old(Tokens()) + {token}
      ensures token == LAST ==> forall i, t :: 0 <= i < |runs| && 0 <= t <= LAST ==> !Covers(runs[i], t)
    {
      if |runs| == 0 || runs[0].first != 0 {
        InsertedAdds(runs, 0, 0);
        InsertTokenAt(0, 0);
        return 0;
      }
      var run := runs[0];
      token := U32(run.first + run.length);
      assert forall t :: 0 <= t < token ==> InRun(runs[0], t);
      SplitsMeansFree(runs, 1, token);
      if token != LAST {
        InsertedAdds(runs, token, 1);
      } else {
        LastIsAlone(runs);
      }
      InsertTokenAt(token, 1);
      assert token == LAST ==> runs[0].length == 0;
    }

    /** Takes the given token.  The last uint32_t is taken too, and with it the runs are lost. */
    method Reserve(token: int) returns (status: Status)
      requires Valid() && 0 <= token <= LAST
      modifies this
      ensures status == if token in old(Tokens()) then BadValue else NoError
      ensures Valid() <==> token != LAST
      ensures token != LAST ==> Tokens() == old(Tokens()) + {token}
      ensures token == LAST ==> runs == Inserted(old(runs), LAST, |old(runs)|)
    {
      var found, o := IndexOrderOf(token);
      if found {
        HeldBelowLast(runs, token);
        return BadValue;
      }
      if token != LAST {
        InsertedAdds(runs, token, o);
      } else {
        LastTokenLost(runs, 0);
        AfterAll(runs, o);
      }
      InsertTokenAt(token, o);
      return NoError;
    }

    method Release(token: int) returns (status: Status)
      requires Valid() && 0 <= token <= LAST
      modifies this
      ensures Valid()
      ensures status == if token in old(Tokens()) then NoError else NameNotFound
      ensures Tokens() == old(Tokens()) - {token}
    {
      var found, i := IndexOrderOf(token);
      if !found {
        return NameNotFound;
      }
      ghost var after := Released(runs, token, i);
      ReleasedRemoves(runs, token, i);
      var run := runs[i];
      if token == run.first || token == U32(run.first + run.length - 1) {
        if token == run.first {
          run := Run(U32(run.first + 1), run.length);
        }
        run := Run(run.first, run.length - 1);
        if run.length == 0 {
          runs := runs[..i] + runs[i + 1..];
        } else {
          runs := runs[i := run];
        }
      } else {
        var first := U32(token + 1);
        runs := runs[..i] + [Run(run.first, token - run.first), Run(first, End(run) - first)] + runs[i + 1..];
      }
      assert runs == after;
      return NoError;
    }
  }

  lemma HeldBelowLast(runs: seq<Run>, token: int)
    requires Sorted(runs) && Has(runs, token)
    ensures token < LAST
  {
  }

  lemma AfterAll(runs: seq<Run>, index: int)
    requires Sorted(runs) && Splits(runs, index, LAST)
    ensures index == |runs|
  {
    if index < |runs| {
      FirstBelowLast(runs, index);
      assert false;
    }
  }

  lemma FirstBelowLast(runs: seq<Run>, i: nat)
    requires Sorted(runs) && i < |runs|
    ensures runs[i].first < LAST
  {
  }

  lemma LastIsAlone(runs: seq<Run>)
    requires Sorted(runs) && |runs| > 0 && runs[0] == Run(0, LAST)
    ensures |runs| == 1 && Inserted(runs, LAST, 1) == [Run(0, 0)]
  {
    if |runs| > 1 {
      Ordered(runs, 0, 1);
      assert false;
    }
  }

  lemma Ordered(runs: seq<Run>, i: int, j: int)
    requires Sorted(runs) && 0 <= i < j < |runs|
    ensures runs[i].first + runs[i].length < runs[j].first < LAST
  {
  }

  /** As many tokens are below the least free one as it says. */
  lemma {:induction false} LeastFreeBound(s: set<int>, token: int)
    requires 0 <= token && forall t :: 0 <= t < token ==> t in s
    ensures token <= |s|
  {
    if token > 0 {
      LeastFreeBound(s - {token - 1}, token - 1);
    }
  }

  /** The names handed out by one of the GL object managers.  Token 0 is always in use. */
  class TokenManager {
    const tokenizer: Tokenizer

    ghost predicate Valid()
      reads this, tokenizer
    {
      tokenizer.Valid() && 0 in tokenizer.Tokens()
    }

    constructor ()
      ensures Valid() && fresh(tokenizer) && tokenizer.Tokens() == {0}
    {
      tokenizer := new Tokenizer();
      new;
      var status := tokenizer.Reserve(0);
    }

    method TakeInto(tokens: array<int>, i: int, ghost was: set<int>)
      requires 0 <= i < tokens.Length
      requires tokenizer.Valid() && Taken(was, tokenizer.Tokens(), tokens[..i]) && |was| + i < LAST
      modifies tokenizer, tokens
      ensures tokenizer.Valid() && Taken(was, tokenizer.Tokens(), tokens[..i + 1])
      ensures forall k :: i < k < tokens.Length ==> tokens[k] == old(tokens[k])
    {
      ghost var before, taken := tokenizer.Tokens(), tokens[..i];
      var token := tokenizer.Acquire();
      LeastFreeBound(before, token);
      TakenSize(was, before, taken);
      TakenNext(was, before, taken, token);
      Store(tokens, i, token);
    }

    /** The n least free tokens, in increasing order: none is zero or was in use. */
    method GetToken(n: int, tokens: array<int>)
      requires Valid() && n <= tokens.Length
      requires n > 0 ==> |tokenizer.Tokens()| + n <= LAST
      modifies tokenizer, tokens
      ensures Valid()
      ensures Taken(old(tokenizer.Tokens()), tokenizer.Tokens(), tokens[..Max(n, 0)])
      ensures 0 !in tokens[..Max(n, 0)]
      ensures forall k :: Max(n, 0) <= k < tokens.Length ==> tokens[k] == old(tokens[k])
    {
      ghost var was, all := tokenizer.Tokens(), Max(n, 0);
      var i := 0;
      while i < n
        invariant 0 <= i <= all
        invariant tokenizer.Valid() && Taken(was, tokenizer.Tokens(), tokens[..i])
        invariant forall k :: i <= k < tokens.Length ==> tokens[k] == old(tokens[k])
      {
        TakeInto(tokens, i, was);
        i := i + 1;
      }
      assert i == all;
      ZeroStays(was, tokenizer.Tokens(), tokens[..i]);
    }

    /** Gives tokens back; zero, and tokens not in use, are passed over. */
    method RecycleTokens(n: int, tokens: array<int>)
      requires Valid() && n <= tokens.Length
      requires forall i :: 0 <= i < n ==> 0 <= tokens[i] <= LAST
      modifies tokenizer
      ensures Valid()
      ensures tokenizer.Tokens() == old(tokenizer.Tokens()) - (set i | 0 <= i < n && tokens[i] != 0 :: tokens[i])
    {
      var i := 0;
      while i < n
        invariant 0 <= i <= Max(n, 0) && tokenizer.Valid()
        invariant tokenizer.Tokens() == old(tokenizer.Tokens()) - (set k | 0 <= k < i && tokens[k] != 0 :: tokens[k])
      {
        var token := tokens[i];
        if token != 0 {
          var status := tokenizer.Release(token);
        }
        i := i + 1;
      }
    }

    method IsTokenValid(token: int) returns (valid: bool)
      requires Valid() && 0 <= token <= LAST
      ensures valid <==> token in tokenizer.Tokens()
    {
      valid := tokenizer.IsAcquired(token);
    }
  }

  method Store(tokens: array<int>, i: int, token: int)
    requires 0 <= i < tokens.Length
    modifies tokens
    ensures tokens[..i + 1] == old(tokens[..i]) + [token]
    ensures forall k :: i < k < tokens.Length ==> tokens[k] == old(tokens[k])
  {
    tokens[i] := token;
  }

  /** `now` is `was` plus the listed tokens, each of them new, increasing, and leaving nothing
      free below the last of them. */
  ghost predicate Taken(was: set<int>, now: set<int>, tokens: seq<int>) {
    && now == was + (set t | t in tokens)
    && (forall i :: 0 <= i < |tokens| ==> 0 <= tokens[i] < LAST && tokens[i] !in was)
    && (forall i, j :: 0 <= i < j < |tokens| ==> tokens[i] < tokens[j])
    && (|tokens| > 0 ==> forall t :: 0 <= t <= tokens[|tokens| - 1] ==> t in now)
  }

  lemma ZeroStays(was: set<int>, now: set<int>, tokens: seq<int>)
    requires Taken(was, now, tokens) && 0 in was
    ensures 0 in now && 0 !in tokens
  {
  }

  lemma {:induction false} TakenSize(was: set<int>, now: set<int>, tokens: seq<int>)
    requires Taken(was, now, tokens)
    ensures |now| <= |was| + |tokens|
  {
    ElementsAtMost(tokens);
    assert now == was + (set t | t in tokens);
  }

  lemma {:induction false} ElementsAtMost(tokens: seq<int>)
    ensures |set t | t in tokens| <= |tokens|
  {
    if |tokens| == 0 {
      assert (set t | t in tokens) == {};
    } else {
      var rest := tokens[..|tokens| - 1];
      ElementsAtMost(rest);
      assert (set t | t in tokens) == (set t | t in rest) + {tokens[|tokens| - 1]};
    }
  }

  lemma TakenNext(was: set<int>, now: set<int>, tokens: seq<int>, token: int)
    requires Taken(was, now, tokens) && 0 <= token < LAST && token !in now
    requires forall t :: 0 <= t < token ==> t in now
    ensures Taken(was, now + {token}, tokens + [token])
  {
    var next := tokens + [token];
    assert (set t | t in next) == (set t | t in tokens) + {token};
    if |tokens| > 0 {
      assert tokens[|tokens| - 1] < token;
    }
  }
}
