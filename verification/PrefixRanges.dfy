/** The work-content score of a closed journal counts the cell ids that carry none of a few
    prefixes.  The source does not filter: it sums range counts over the gaps between the
    sorted prefixes, closing each prefix's range at the prefix followed by the last code point. */
module PrefixRanges {

  const LAST: char := '\U{10FFFF}'

  /** SQLite's BINARY collation on UTF-8 text, which is the order of code points. */
  predicate Less(a: string, b: string) {
    b != [] && (a == [] || a[0] < b[0] || (a[0] == b[0] && Less(a[1..], b[1..])))
  }

  predicate AtMost(a: string, b: string) {
    a == b || Less(a, b)
  }

  /** The end of the range of ids that the source takes to start with `p`. */
  function Ceiling(p: string): string {
    p + [LAST]
  }

  predicate Carries(id: string, prefixes: seq<string>) {
    exists i :: 0 <= i < |prefixes| && prefixes[i] <= id
  }

  /** The id continues some prefix with the last code point, so it lies above the range. */
  predicate Blind(id: string, prefixes: seq<string>) {
    exists i :: 0 <= i < |prefixes| && Ceiling(prefixes[i]) <= id
  }

  ghost predicate Ascending(prefixes: seq<string>) {
    forall i, j :: 0 <= i < j < |prefixes| ==> Less(prefixes[i], prefixes[j])
  }

  ghost predicate PrefixFree(prefixes: seq<string>) {
    forall i, j :: 0 <= i < |prefixes| && 0 <= j < |prefixes| && i != j ==> !(prefixes[i] <= prefixes[j])
  }

  // ---------- what SQLite answers ----------

  /** SELECT COUNT(*) FROM current_cells WHERE cell_id >= lower AND cell_id < upper */
  function CountBetween(ids: seq<string>, lower: string, upper: string): nat {
    if ids == [] then 0
    else (if AtMost(lower, ids[0]) && Less(ids[0], upper) then 1 else 0) + CountBetween(ids[1..], lower, upper)
  }

  /** SELECT COUNT(*) FROM current_cells WHERE cell_id >= lower */
  function CountFrom(ids: seq<string>, lower: string): nat {
    if ids == [] then 0
    else (if AtMost(lower, ids[0]) then 1 else 0) + CountFrom(ids[1..], lower)
  }

  // ---------- what the count is for ----------

  /** How many ids start with none of the prefixes. */
  function CountWithout(ids: seq<string>, prefixes: seq<string>): nat {
    if ids == [] then 0
    else (if Carries(ids[0], prefixes) then 0 else 1) + CountWithout(ids[1..], prefixes)
  }

  function CountBlind(ids: seq<string>, prefixes: seq<string>): nat {
    if ids == [] then 0
    else (if Blind(ids[0], prefixes) then 1 else 0) + CountBlind(ids[1..], prefixes)
  }

  // ---------- the order ----------

  lemma {:induction false} LessIrreflexive(a: string)
    ensures !Less(a, a)
  {
    if a != [] { LessIrreflexive(a[1..]); }
  }

  lemma {:induction false} LessTransitive(a: string, b: string, c: string)
    requires Less(a, b) && Less(b, c)
    ensures Less(a, c)
  {
    if a != [] && a[0] == b[0] == c[0] { LessTransitive(a[1..], b[1..], c[1..]); }
  }

  lemma {:induction false} LessTotal(a: string, b: string)
    ensures a == b || Less(a, b) || Less(b, a)
  {
    if a != [] && b != [] && a[0] == b[0] {
      LessTotal(a[1..], b[1..]);
      if a[1..] == b[1..] { assert a == [a[0]] + a[1..] == [b[0]] + b[1..] == b; }
    }
  }

  /** A strict order: exactly one of the three cases, and chains compose. */
  lemma Compare(a: string, b: string)
    ensures Less(a, b) <==> !AtMost(b, a)
  {
    LessTotal(a, b);
    LessIrreflexive(a);
    if Less(a, b) && Less(b, a) { LessTransitive(a, b, a); }
  }

  lemma Chain(a: string, b: string, c: string)
    requires AtMost(a, b) && AtMost(b, c)
    ensures AtMost(a, c)
    ensures Less(a, b) || Less(b, c) ==> Less(a, c)
  {
    if Less(a, b) && Less(b, c) { LessTransitive(a, b, c); }
  }

  lemma {:induction false} LessAtIndex(a: string, b: string, k: nat)
    requires k < |a| && k < |b| && a[..k] == b[..k] && a[k] < b[k]
    ensures Less(a, b)
  {
    if k > 0 {
      assert a[0] == a[..k][0] == b[..k][0] == b[0];
      assert a[1..][..k - 1] == a[..k][1..] == b[..k][1..] == b[1..][..k - 1];
      LessAtIndex(a[1..], b[1..], k - 1);
    }
  }

  // ---------- one prefix's range ----------

  /** The half-open range from `p` to its ceiling holds exactly the ids that start with `p`
      and do not go on with the last code point. */
  lemma {:induction false} RangeOfPrefix(p: string, id: string)
    ensures AtMost(p, id) && Less(id, Ceiling(p)) <==> p <= id && !(Ceiling(p) <= id)
  {
    if p == [] {
      assert Ceiling(p) == [LAST];
      if id != [] {
        assert Less(id[1..], []) == false;
        assert [LAST] <= id <==> id[0] == LAST;
      }
    } else if id == [] {
    } else {
      assert Ceiling(p)[1..] == Ceiling(p[1..]);
      assert Ceiling(p)[0] == p[0];
      RangeOfPrefix(p[1..], id[1..]);
      if id[0] == p[0] {
        PrefixStep(p, id);
        PrefixStep(Ceiling(p), id);
        assert AtMost(p, id) <==> AtMost(p[1..], id[1..]) by {
          if p[1..] == id[1..] { assert p == [p[0]] + p[1..] == [id[0]] + id[1..] == id; }
        }
      }
    }
  }

  lemma PrefixStep(p: string, id: string)
    requires p != [] && id != [] && p[0] == id[0]
    ensures p <= id <==> p[1..] <= id[1..]
  {
    if p <= id { assert p[1..] == id[1..][..|p| - 1]; }
    if p[1..] <= id[1..] {
      assert p == [p[0]] + p[1..];
      assert id[..|p|] == [id[0]] + id[1..][..|p| - 1];
    }
  }

  /** Two different prefixes, neither continuing the other, have ranges that do not touch. */
  lemma {:induction false} RangesInOrder(p: string, q: string)
    requires Less(p, q) && !(p <= q)
    ensures Less(Ceiling(p), q)
  {
    assert p != [];
    assert Ceiling(p)[0] == p[0];
    if p[0] == q[0] {
      PrefixStep(p, q);
      RangesInOrder(p[1..], q[1..]);
      assert Ceiling(p)[1..] == Ceiling(p[1..]);
    }
  }

  // ---------- the running count ----------

  /** Ids already accounted for once the first `i` ranges are passed. */
  predicate Passed(id: string, prefixes: seq<string>, i: nat, lower: string)
    requires i <= |prefixes|
  {
    Less(id, lower) && !(exists j :: 0 <= j < i && prefixes[j] <= id && !(Ceiling(prefixes[j]) <= id))
  }

  function CountPassed(ids: seq<string>, prefixes: seq<string>, i: nat, lower: string): nat
    requires i <= |prefixes|
  {
    if ids == [] then 0
    else (if Passed(ids[0], prefixes, i, lower) then 1 else 0) + CountPassed(ids[1..], prefixes, i, lower)
  }

  ghost predicate Below(prefixes: seq<string>, i: nat, lower: string)
    requires i <= |prefixes|
  {
    && (forall j :: 0 <= j < i ==> AtMost(Ceiling(prefixes[j]), lower))
    && (forall j :: i <= j < |prefixes| ==> AtMost(lower, prefixes[j]))
  }

  lemma NextLower(prefixes: seq<string>, i: nat, lower: string)
    requires Ascending(prefixes) && PrefixFree(prefixes)
    requires i < |prefixes| && Below(prefixes, i, lower)
    ensures Below(prefixes, i + 1, Ceiling(prefixes[i]))
    ensures AtMost(lower, Ceiling(prefixes[i]))
  {
    var p := prefixes[i];
    RangeOfPrefix(p, p);
    Chain(lower, p, Ceiling(p));
    forall j | 0 <= j < i ensures AtMost(Ceiling(prefixes[j]), Ceiling(p)) {
      Chain(Ceiling(prefixes[j]), lower, Ceiling(p));
    }
    forall j | i < j < |prefixes| ensures AtMost(Ceiling(p), prefixes[j]) {
      RangesInOrder(p, prefixes[j]);
    }
  }

  lemma PassedStep(id: string, prefixes: seq<string>, i: nat, lower: string)
    requires Ascending(prefixes) && PrefixFree(prefixes)
    requires i < |prefixes| && Below(prefixes, i, lower)
    ensures var p := prefixes[i];
            Passed(id, prefixes, i + 1, Ceiling(p))
            <==> (Passed(id, prefixes, i, lower) || (AtMost(lower, id) && Less(id, p)))
    ensures !(Passed(id, prefixes, i, lower) && AtMost(lower, id))
  {
    var p := prefixes[i];
    NextLower(prefixes, i, lower);
    Compare(id, lower);
    Compare(id, p);
    RangeOfPrefix(p, id);
    if Less(id, lower) { Chain(id, lower, p); Chain(id, lower, Ceiling(p)); }
    if Less(id, p) {
      RangeOfPrefix(p, p);
      Chain(id, p, Ceiling(p));
    }
    forall j | 0 <= j < i && AtMost(lower, id)
      ensures !(prefixes[j] <= id && !(Ceiling(prefixes[j]) <= id))
    {
      RangeOfPrefix(prefixes[j], id);
      Chain(Ceiling(prefixes[j]), lower, id);
      Compare(id, Ceiling(prefixes[j]));
    }
  }

  lemma {:induction false} CountPassedStep(ids: seq<string>, prefixes: seq<string>, i: nat, lower: string)
    requires Ascending(prefixes) && PrefixFree(prefixes)
    requires i < |prefixes| && Below(prefixes, i, lower)
    ensures CountPassed(ids, prefixes, i + 1, Ceiling(prefixes[i]))
            == CountPassed(ids, prefixes, i, lower) + CountBetween(ids, lower, prefixes[i])
  {
    if ids != [] {
      PassedStep(ids[0], prefixes, i, lower);
      CountPassedStep(ids[1..], prefixes, i, lower);
    }
  }

  lemma PrefixesOfOneId(p: string, q: string, id: string)
    requires p <= id && q <= id
    ensures p <= q || q <= p
  {
    if |p| <= |q| {
      assert p == id[..|p|] == q[..|p|];
    } else {
      assert q == id[..|q|] == p[..|q|];
    }
  }

  lemma LastGap(id: string, prefixes: seq<string>, lower: string)
    requires PrefixFree(prefixes) && Below(prefixes, |prefixes|, lower)
    ensures (Passed(id, prefixes, |prefixes|, lower) || AtMost(lower, id))
            <==> (!Carries(id, prefixes) || Blind(id, prefixes))
    ensures !(Passed(id, prefixes, |prefixes|, lower) && AtMost(lower, id))
    ensures Blind(id, prefixes) ==> Carries(id, prefixes)
  {
    Compare(id, lower);
    forall j | 0 <= j < |prefixes| && AtMost(lower, id)
      ensures !(prefixes[j] <= id && !(Ceiling(prefixes[j]) <= id))
    {
      RangeOfPrefix(prefixes[j], id);
      Chain(Ceiling(prefixes[j]), lower, id);
      Compare(id, Ceiling(prefixes[j]));
    }
    forall j | 0 <= j < |prefixes| && Ceiling(prefixes[j]) <= id
      ensures prefixes[j] <= id
    {
      assert prefixes[j] == Ceiling(prefixes[j])[..|prefixes[j]|] == id[..|prefixes[j]|];
    }
    // No id starts with two of the prefixes, so being blind to one is being outside all ranges.
    forall j, k | 0 <= j < |prefixes| && 0 <= k < |prefixes| && prefixes[j] <= id && prefixes[k] <= id
      ensures j == k
    {
      PrefixesOfOneId(prefixes[j], prefixes[k], id);
    }
  }

  lemma {:induction false} CountLastGap(ids: seq<string>, prefixes: seq<string>, lower: string)
    requires PrefixFree(prefixes) && Below(prefixes, |prefixes|, lower)
    ensures CountPassed(ids, prefixes, |prefixes|, lower) + CountFrom(ids, lower)
            == CountWithout(ids, prefixes) + CountBlind(ids, prefixes)
  {
    if ids != [] {
      LastGap(ids[0], prefixes, lower);
      CountLastGap(ids[1..], prefixes, lower);
    }
  }

  lemma {:induction false} NothingPassedYet(ids: seq<string>, prefixes: seq<string>)
    ensures CountPassed(ids, prefixes, 0, "") == 0
  {
    if ids != [] { NothingPassedYet(ids[1..], prefixes); }
  }

  /** The blind ids are the whole error of the count. */
  lemma {:induction false} NoBlindId(ids: seq<string>, prefixes: seq<string>)
    ensures CountBlind(ids, prefixes) == 0 <==> (forall id :: id in ids ==> !Blind(id, prefixes))
  {
    if ids != [] {
      NoBlindId(ids[1..], prefixes);
      assert ids == [ids[0]] + ids[1..];
    }
  }

  /** The source's loop over the sorted prefixes, with its running `work` and `lower`. */
  method WorkCount(ids: seq<string>, prefixes: seq<string>) returns (work: nat)
    requires Ascending(prefixes) && PrefixFree(prefixes)
    ensures work == CountWithout(ids, prefixes) + CountBlind(ids, prefixes)
    ensures work == CountWithout(ids, prefixes) <==> (forall id :: id in ids ==> !Blind(id, prefixes))
  {
    work := 0;
    var lower := "";
    NothingPassedYet(ids, prefixes);
    for i := 0 to |prefixes|
      invariant Below(prefixes, i, lower)
      invariant work == CountPassed(ids, prefixes, i, lower)
    {
      CountPassedStep(ids, prefixes, i, lower);
      NextLower(prefixes, i, lower);
      work := work + CountBetween(ids, lower, prefixes[i]);
      lower := Ceiling(prefixes[i]);
    }
    CountLastGap(ids, prefixes, lower);
    NoBlindId(ids, prefixes);
    work := work + CountFrom(ids, lower);
  }

  // ---------- when an id is blind ----------

  lemma CeilingEndsInLast(p: string, id: string)
    requires Ceiling(p) <= id
    ensures LAST in id
  {
    assert id[|p|] == Ceiling(p)[|p|];
  }

  /** Ids free of the last code point are never blind, whatever the prefixes. */
  lemma NoLastCodePoint(id: string, prefixes: seq<string>)
    requires LAST !in id
    ensures !Blind(id, prefixes)
  {
    forall i | 0 <= i < |prefixes|
      ensures !(Ceiling(prefixes[i]) <= id)
    {
      if Ceiling(prefixes[i]) <= id { CeilingEndsInLast(prefixes[i], id); }
    }
  }

  // ---------- the prefixes of the source ----------

  const SESSION_PREFIXES: seq<string> :=
    ["app:agent-session:", "app:baboom-session:", "app:deliberation", "app:workshop:"]

  lemma SessionPrefixesAdmitted()
    ensures Ascending(SESSION_PREFIXES) && PrefixFree(SESSION_PREFIXES)
  {
    var s := SESSION_PREFIXES;
    forall i, j | 0 <= i < j < |s|
      ensures Less(s[i], s[j]) && !(s[i] <= s[j]) && !(s[j] <= s[i])
    {
      assert s[i][..4] == "app:" == s[j][..4];
      assert s[i][4] < s[j][4];
      LessAtIndex(s[i], s[j], 4);
    }
  }

  /** A session id that goes on with the last code point carries a prefix, and is blind. */
  lemma MiscountedId(i: nat, rest: string)
    requires i < |SESSION_PREFIXES|
    ensures var id := Ceiling(SESSION_PREFIXES[i]) + rest;
            && Carries(id, SESSION_PREFIXES) && CountWithout([id], SESSION_PREFIXES) == 0
            && CountBlind([id], SESSION_PREFIXES) == 1
  {
    var p := SESSION_PREFIXES[i];
    var id: string := Ceiling(p) + rest;
    assert id[..|p|] == p && p <= id && Ceiling(p) <= id;
    var ids: seq<string> := [id];
    assert ids[1..] == [];
  }

  /** So the source's loop, over its own prefixes, counts such an id as work. */
  method MiscountedSession(i: nat, rest: string) returns (id: string, work: nat)
    requires i < |SESSION_PREFIXES|
    ensures id == Ceiling(SESSION_PREFIXES[i]) + rest && SESSION_PREFIXES[i] <= id
    ensures work == 1 && CountWithout([id], SESSION_PREFIXES) == 0
  {
    id := Ceiling(SESSION_PREFIXES[i]) + rest;
    assert id[..|SESSION_PREFIXES[i]|] == SESSION_PREFIXES[i];
    SessionPrefixesAdmitted();
    MiscountedId(i, rest);
    work := WorkCount([id], SESSION_PREFIXES);
  }
}
