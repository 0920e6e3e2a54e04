/**
 * The chainage-continuity rule of the road-condition validator.  Rows are
 * grouped by (Province_Code, Kabupaten_Code, Year) in order of first
 * appearance, missing keys forming groups of their own; each group is
 * sorted by Link_No and then by numeric ChainageFrom.  The first sorted row
 * must start at 0, and within one link every row's ChainageFrom must equal
 * the ChainageTo of the previous row with numeric chainages.
 */
module Chainage {
  import opened Wrappers
  import opened Text
  import opened Numbers
  import opened Values
  import opened Sorting
  import opened Tables

  datatype GroupKey = GroupKey(province: Value, kabupaten: Value, year: Value)

  function KeyOf(r: Row): GroupKey {
    GroupKey(Cell(r, "Province_Code"), Cell(r, "Kabupaten_Code"), Cell(r, "Year"))
  }

  /** `groupby(..., dropna=False)` puts two rows together when every key part is equal or missing in both. */
  predicate SameGroup(a: GroupKey, b: GroupKey) {
    SameKey(a.province, b.province) && SameKey(a.kabupaten, b.kabupaten) && SameKey(a.year, b.year)
  }

  lemma SameKeyEquivalence(a: Value, b: Value, c: Value)
    ensures SameKey(a, a)
    ensures SameKey(a, b) ==> SameKey(b, a)
    ensures SameKey(a, b) && SameKey(b, c) ==> SameKey(a, c)
  {
    PyEqEquivalence(a, b, c);
  }

  /** A missing key part shows as nan in the group name. */
  function KeyPartRepr(v: Value): string {
    if IsNa(v) then "nan" else PyRepr(v)
  }

  /** The group name as a Python tuple, e.g. "('11', '05', 2023)". */
  function GroupName(k: GroupKey): string {
    "(" + KeyPartRepr(k.province) + ", " + KeyPartRepr(k.kabupaten) + ", " + KeyPartRepr(k.year) + ")"
  }

  function RowAt(rows: seq<Row>, i: nat): Row {
    if i < |rows| then rows[i] else map[]
  }

  /** No row before `i` shares row `i`'s group. */
  predicate OpensGroup(rows: seq<Row>, i: nat)
    requires i < |rows|
  {
    forall j :: 0 <= j < i ==> !SameGroup(KeyOf(rows[j]), KeyOf(rows[i]))
  }

  /** The first row of each group, in order of appearance: the groups `groupby(sort=False)` yields. */
  function Leaders(rows: seq<Row>): (ls: seq<nat>)
    ensures forall k :: 0 <= k < |ls| ==> ls[k] < |rows| && OpensGroup(rows, ls[k])
    ensures forall k, l :: 0 <= k < l < |ls| ==> ls[k] < ls[l]
  {
    if rows == [] then []
    else
      var n := |rows| - 1;
      var before := Leaders(rows[..n]);
      assert forall k :: 0 <= k < |before| ==> OpensGroup(rows, before[k]) by {
        forall k | 0 <= k < |before| ensures OpensGroup(rows, before[k]) {
          assert OpensGroup(rows[..n], before[k]);
          forall j | 0 <= j < before[k] ensures rows[..n][j] == rows[j] {
          }
        }
      }
      before + (if OpensGroup(rows, n) then [n] else [])
  }

  /** The rows among the first `n` whose key falls in the group of `key`, in row order. */
  function Filter(rows: seq<Row>, key: GroupKey, n: nat): (ms: seq<nat>)
    requires n <= |rows|
    ensures forall k :: 0 <= k < |ms| ==> ms[k] < n
    ensures forall i :: 0 <= i < n ==> (i in ms <==> SameGroup(KeyOf(rows[i]), key))
    ensures forall k, l :: 0 <= k < l < |ms| ==> ms[k] < ms[l]
  {
    if n == 0 then []
    else Filter(rows, key, n - 1) + (if SameGroup(KeyOf(rows[n - 1]), key) then [n - 1] else [])
  }

  /** The rows of the group that row `leader` opens, in row order. */
  function Members(rows: seq<Row>, leader: nat): seq<nat> {
    Filter(rows, KeyOf(RowAt(rows, leader)), |rows|)
  }

  /** `pd.to_numeric(..., errors="coerce")` of one cell: None where pandas gives nan. */
  function Numeric(v: Value): (n: Option<Dec>)
    ensures n.Some? <==> ToFloat(v).Some? && ToFloat(v).value.Finite?
  {
    match ToFloat(v)
    case Some(Finite(d)) => Some(d)
    case _ => None
  }

  /**
   * One row of the sorted group copy `local`: its index in the table, its
   * Link_No, and the helper columns `__from` and `__to`.
   */
  datatype Entry = Entry(index: nat, link: Value, from: Option<Dec>, to: Option<Dec>)

  function EntryOf(rows: seq<Row>, i: nat): Entry {
    var r := RowAt(rows, i);
    Entry(i, Cell(r, "Link_No"), Numeric(Cell(r, "ChainageFrom")), Numeric(Cell(r, "ChainageTo")))
  }

  /** The group `leader` opens, with the helper columns added, in row order. */
  function Local(rows: seq<Row>, leader: nat): (es: seq<Entry>)
    ensures |es| == |Members(rows, leader)|
    ensures forall k :: 0 <= k < |es| ==> es[k] == EntryOf(rows, Members(rows, leader)[k])
  {
    var ms := Members(rows, leader);
    seq(|ms|, k requires 0 <= k < |ms| => EntryOf(rows, ms[k]))
  }

  /** The order of a numeric column under `sort_values`: by value, nan last. */
  predicate NumLe(a: Option<Dec>, b: Option<Dec>) {
    b.None? || (a.Some? && a.value.Val() <= b.value.Val())
  }

  /** `sort_values(["Link_No", "__from"])`: by Link_No, then by `__from`. */
  predicate EntryLe(a: Entry, b: Entry) {
    (SortLe(a.link, b.link) && !SortLe(b.link, a.link))
    || (SortLe(a.link, b.link) && SortLe(b.link, a.link) && NumLe(a.from, b.from))
  }

  lemma EntryLeTotalPreorder(a: Entry, b: Entry, c: Entry)
    ensures EntryLe(a, b) || EntryLe(b, a)
    ensures EntryLe(a, b) && EntryLe(b, c) ==> EntryLe(a, c)
  {
    SortLeTotalPreorder(a.link, b.link, c.link);
    SortLeTotalPreorder(b.link, a.link, c.link);
    SortLeTotalPreorder(a.link, c.link, b.link);
    SortLeTotalPreorder(b.link, c.link, a.link);
    SortLeTotalPreorder(c.link, a.link, b.link);
    SortLeTotalPreorder(c.link, b.link, a.link);
  }

  /** The group of `leader`, sorted as the continuity check walks it. */
  function SortedGroup(rows: seq<Row>, leader: nat): seq<Entry> {
    SortBy(Local(rows, leader), EntryLe)
  }

  /** The sorted group holds exactly the group's rows, in (Link_No, ChainageFrom) order. */
  lemma SortedGroupOrdered(rows: seq<Row>, leader: nat)
    ensures multiset(SortedGroup(rows, leader)) == multiset(Local(rows, leader))
    ensures forall k, l :: 0 <= k < l < |SortedGroup(rows, leader)| ==>
      EntryLe(SortedGroup(rows, leader)[k], SortedGroup(rows, leader)[l])
  {
    var es := Local(rows, leader);
    assert TotalPreorderOn(es, EntryLe) by {
      forall a, b, c | a in es && b in es && c in es
        ensures EntryLe(a, b) || EntryLe(b, a)
        ensures EntryLe(a, b) && EntryLe(b, c) ==> EntryLe(a, c)
      {
        EntryLeTotalPreorder(a, b, c);
      }
    }
    SortByIsSorted(es, EntryLe);
  }

  /** `SameGroup` is an equivalence: `groupby` splits the rows into disjoint groups. */
  lemma SameGroupEquivalence(a: GroupKey, b: GroupKey, c: GroupKey)
    ensures SameGroup(a, a)
    ensures SameGroup(a, b) ==> SameGroup(b, a)
    ensures SameGroup(a, b) && SameGroup(b, c) ==> SameGroup(a, c)
  {
    SameKeyEquivalence(a.province, b.province, c.province);
    SameKeyEquivalence(a.kabupaten, b.kabupaten, c.kabupaten);
    SameKeyEquivalence(a.year, b.year, c.year);
  }

  /** Every row that opens a group is among the leaders. */
  lemma {:induction false} LeadersComplete(rows: seq<Row>, i: nat)
    requires i < |rows| && OpensGroup(rows, i)
    ensures i in Leaders(rows)
    decreases |rows|
  {
    var n := |rows| - 1;
    if i < n {
      assert OpensGroup(rows[..n], i) by {
        forall j | 0 <= j < i ensures rows[..n][j] == rows[j] {
        }
      }
      LeadersComplete(rows[..n], i);
    }
  }

  /** The row that opens the group of row `i`: the first row sharing its key. */
  lemma {:induction false} LeaderOf(rows: seq<Row>, i: nat) returns (l: nat)
    requires i < |rows|
    ensures l <= i && OpensGroup(rows, l) && SameGroup(KeyOf(rows[l]), KeyOf(rows[i]))
    decreases i
  {
    SameGroupEquivalence(KeyOf(rows[i]), KeyOf(rows[i]), KeyOf(rows[i]));
    if OpensGroup(rows, i) {
      l := i;
    } else {
      var j :| 0 <= j < i && SameGroup(KeyOf(rows[j]), KeyOf(rows[i]));
      l := LeaderOf(rows, j);
      SameGroupEquivalence(KeyOf(rows[l]), KeyOf(rows[j]), KeyOf(rows[i]));
    }
  }

  /** Every row belongs to the group of some leader. */
  lemma EveryRowGrouped(rows: seq<Row>, i: nat)
    requires i < |rows|
    ensures exists l :: l in Leaders(rows) && i in Members(rows, l)
  {
    var l := LeaderOf(rows, i);
    LeadersComplete(rows, l);
    SameGroupEquivalence(KeyOf(rows[l]), KeyOf(rows[i]), KeyOf(rows[l]));
    assert i in Members(rows, l);
  }

  /** Two rows that open groups are never in the same group. */
  lemma LeadersApart(rows: seq<Row>, l1: nat, l2: nat)
    requires l1 < l2 < |rows| && OpensGroup(rows, l2)
    ensures !SameGroup(KeyOf(rows[l1]), KeyOf(rows[l2]))
  {
  }

  /** No row belongs to the groups of two different leaders. */
  lemma GroupsDisjoint(rows: seq<Row>, i: nat, l1: nat, l2: nat)
    requires i < |rows|
    requires l1 in Leaders(rows) && l2 in Leaders(rows)
    requires i in Members(rows, l1) && i in Members(rows, l2)
    ensures l1 == l2
  {
    var k1, k2, ki := KeyOf(rows[l1]), KeyOf(rows[l2]), KeyOf(rows[i]);
    assert SameGroup(ki, k1) && SameGroup(ki, k2);
    SameGroupEquivalence(k1, ki, k2);
    SameGroupEquivalence(ki, k1, k1);
    SameGroupEquivalence(k2, ki, k1);
    SameGroupEquivalence(ki, k2, k2);
    if l1 < l2 {
      LeadersApart(rows, l1, l2);
    } else if l2 < l1 {
      LeadersApart(rows, l2, l1);
    }
  }

  /** The row the check tests for a zero start is a row of the group that sorts no later than any other. */
  lemma StartRowIsLeast(rows: seq<Row>, leader: nat)
    requires leader < |rows|
    ensures SortedGroup(rows, leader) != []
    ensures SortedGroup(rows, leader)[0].index in Members(rows, leader)
    ensures forall e :: e in Local(rows, leader) ==> EntryLe(SortedGroup(rows, leader)[0], e)
  {
    var s := SortedGroup(rows, leader);
    var es := Local(rows, leader);
    var ms := Members(rows, leader);
    SameGroupEquivalence(KeyOf(rows[leader]), KeyOf(rows[leader]), KeyOf(rows[leader]));
    assert leader in ms;
    var j :| 0 <= j < |ms| && ms[j] == leader;
    assert es[j] in multiset(es);
    SortedGroupOrdered(rows, leader);
    assert s[0] in multiset(es);
    var i :| 0 <= i < |es| && es[i] == s[0];
    assert s[0].index == ms[i];
    forall e | e in es ensures EntryLe(s[0], e) {
      assert e in multiset(s);
      var k :| 0 <= k < |s| && s[k] == e;
      if k == 0 {
        EntryLeTotalPreorder(e, e, e);
      }
    }
  }

  /** Both chainages are numeric: the only rows the continuity loop looks at. */
  predicate NumericEntry(e: Entry) {
    e.from.Some? && e.to.Some?
  }

  /** The finding for a group whose first sorted row does not start at a numeric 0. */
  function StartFindings(rows: seq<Row>, k: GroupKey, s: seq<Entry>): (fs: seq<Finding>)
    ensures |fs| <= 1
    ensures fs != [] <==> s != [] && (s[0].from.None? || s[0].from.value.Val() != 0.0)
  {
    if s == [] then []
    else
      var first := s[0];
      if first.from.None? || first.from.value.Val() != 0.0 then
        [Finding(Ordinal(first.index + 1), RowAt(rows, first.index), "ChainageFrom must start at 0 for the group " + GroupName(k))]
      else []
  }

  /**
   * Position in `s` of the last entry before position `k` with numeric
   * chainages: the row `prev_to` and `prev_link_no` were last taken from.
   */
  function PrevNumeric(s: seq<Entry>, k: nat): (p: Option<nat>)
    requires k <= |s|
    ensures p.Some? ==> p.value < k && NumericEntry(s[p.value])
  {
    if k == 0 then None
    else if NumericEntry(s[k - 1]) then Some(k - 1)
    else PrevNumeric(s, k - 1)
  }

  /** `prev_link_no is not None and current_link_no != prev_link_no`: a new link begins. */
  predicate NewLink(current: Value, prev: Value) {
    !prev.Null? && !PyEq(current, prev)
  }

  /** Entry `q` is followed by entry `r` on the same link, and `r` does not start where `q` ended. */
  predicate Discontinuous(q: Entry, r: Entry)
    requires NumericEntry(q) && NumericEntry(r)
  {
    !NewLink(r.link, q.link) && r.from.value.Val() != q.to.value.Val()
  }

  function BreakMessage(from: Dec, prevTo: Dec): string {
    "ChainageFrom (" + FloatText(from) + ") must equal previous ChainageTo (" + FloatText(prevTo)
    + ") for continuous chainage within the same link"
  }

  /** The finding for entry `r`, which breaks the chain after entry `q`. */
  function BreakFinding(rows: seq<Row>, q: Entry, r: Entry): Finding
    requires NumericEntry(q) && NumericEntry(r)
  {
    Finding(Ordinal(r.index + 1), RowAt(rows, r.index), BreakMessage(r.from.value, q.to.value))
  }

  /** The finding, if any, for the sorted entry at position `k` of `s`. */
  function BreakAt(rows: seq<Row>, s: seq<Entry>, k: nat): seq<Finding>
    requires k < |s|
  {
    var p := PrevNumeric(s, k);
    if NumericEntry(s[k]) && p.Some? && Discontinuous(s[p.value], s[k])
    then [BreakFinding(rows, s[p.value], s[k])]
    else []
  }

  /** The continuity findings for the first `n` sorted entries `s` of one group. */
  function BreakFindings(rows: seq<Row>, s: seq<Entry>, n: nat): seq<Finding>
    requires n <= |s|
  {
    if n == 0 then [] else BreakFindings(rows, s, n - 1) + BreakAt(rows, s, n - 1)
  }

  /**
   * `prev_to` and `prev_link_no` before position `k`: the `__to` and
   * Link_No of the last earlier entry with numeric chainages, None before any.
   */
  predicate Carried(s: seq<Entry>, k: nat, prevTo: Option<Dec>, prevLink: Value)
    requires k <= |s|
  {
    match PrevNumeric(s, k)
    case None => prevTo.None?
    case Some(p) => prevTo == s[p].to && prevLink == s[p].link
  }

  /** The loop over one sorted group, carrying `prev_to` and `prev_link_no`. */
  method ScanGroup(rows: seq<Row>, s: seq<Entry>) returns (fs: seq<Finding>)
    ensures fs == BreakFindings(rows, s, |s|)
  {
    fs := [];
    var prevTo: Option<Dec> := None;
    var prevLink: Value := Null;
    var k := 0;
    while k < |s|
      invariant 0 <= k <= |s|
      invariant fs == BreakFindings(rows, s, k)
      invariant Carried(s, k, prevTo, prevLink)
    {
      ScanStep(rows, s, k, prevTo, prevLink);
      var cf, ct, link := s[k].from, s[k].to, s[k].link;
      if cf.Some? && ct.Some? {
        if prevTo.Some? && NewLink(link, prevLink) {
          // the first row of a new link is not compared
        } else if prevTo.Some? && cf.value.Val() != prevTo.value.Val() {
          fs := fs + [Finding(Ordinal(s[k].index + 1), RowAt(rows, s[k].index), BreakMessage(cf.value, prevTo.value))];
        }
        prevTo, prevLink := ct, link;
      }
      k := k + 1;
    }
  }

  /** One step of the loop: the finding at position `k` and the values carried past it. */
  lemma ScanStep(rows: seq<Row>, s: seq<Entry>, k: nat, prevTo: Option<Dec>, prevLink: Value)
    requires k < |s| && Carried(s, k, prevTo, prevLink)
    ensures BreakFindings(rows, s, k + 1) == BreakFindings(rows, s, k) + BreakAt(rows, s, k)
    ensures !NumericEntry(s[k]) ==> Carried(s, k + 1, prevTo, prevLink) && BreakAt(rows, s, k) == []
    ensures NumericEntry(s[k]) ==> Carried(s, k + 1, s[k].to, s[k].link)
    ensures NumericEntry(s[k]) && (prevTo.None? || NewLink(s[k].link, prevLink)) ==> BreakAt(rows, s, k) == []
    ensures NumericEntry(s[k]) && prevTo.Some? && !NewLink(s[k].link, prevLink) ==>
      BreakAt(rows, s, k) ==
        (if s[k].from.value.Val() != prevTo.value.Val()
         then [Finding(Ordinal(s[k].index + 1), RowAt(rows, s[k].index), BreakMessage(s[k].from.value, prevTo.value))]
         else [])
  {
  }

  /** All continuity findings of the group `leader` opens: the start check, then the breaks. */
  function GroupFindings(rows: seq<Row>, leader: nat): seq<Finding> {
    var s := SortedGroup(rows, leader);
    StartFindings(rows, KeyOf(RowAt(rows, leader)), s) + BreakFindings(rows, s, |s|)
  }

  function AllGroupFindings(rows: seq<Row>, leaders: seq<nat>): seq<Finding> {
    if leaders == [] then []
    else AllGroupFindings(rows, leaders[..|leaders| - 1]) + GroupFindings(rows, leaders[|leaders| - 1])
  }

  /** The continuity findings of a table, group by group in order of first appearance. */
  function ContinuityFindings(rows: seq<Row>): seq<Finding> {
    AllGroupFindings(rows, Leaders(rows))
  }

  /** The loop over `groupby(...)`: sort each group, check its start, then scan it. */
  method CheckContinuity(rows: seq<Row>) returns (fs: seq<Finding>)
    ensures fs == ContinuityFindings(rows)
  {
    fs := CheckGroups(rows, Leaders(rows));
  }

  /** The groups opened by `leaders`, one after the other. */
  method CheckGroups(rows: seq<Row>, leaders: seq<nat>) returns (fs: seq<Finding>)
    ensures fs == AllGroupFindings(rows, leaders)
  {
    fs := [];
    var g := 0;
    while g < |leaders|
      invariant 0 <= g <= |leaders|
      invariant fs == AllGroupFindings(rows, leaders[..g])
    {
      var s := SortedGroup(rows, leaders[g]);
      var breaks := ScanGroup(rows, s);
      var start := StartFindings(rows, KeyOf(RowAt(rows, leaders[g])), s);
      AllGroupFindingsStep(rows, leaders, g);
      fs := fs + (start + breaks);
      g := g + 1;
    }
    assert leaders[..g] == leaders;
  }

  lemma AllGroupFindingsStep(rows: seq<Row>, leaders: seq<nat>, g: nat)
    requires g < |leaders|
    ensures AllGroupFindings(rows, leaders[..g + 1]) == AllGroupFindings(rows, leaders[..g]) + GroupFindings(rows, leaders[g])
  {
    assert leaders[..g + 1][..g] == leaders[..g];
  }

  /** The entries of `t` with numeric chainages, in order. */
  function NumericOnly(t: seq<Entry>): (r: seq<Entry>)
    ensures |r| <= |t|
    ensures forall j :: 0 <= j < |r| ==> NumericEntry(r[j]) && r[j] in t
  {
    if t == [] then []
    else NumericOnly(t[..|t| - 1]) + (if NumericEntry(t[|t| - 1]) then [t[|t| - 1]] else [])
  }

  /**
   * A reference reading of the continuity rule: among entries with numeric
   * chainages, each is compared with the one just before it, unless a new
   * link begins.
   */
  function PairBreaks(rows: seq<Row>, t: seq<Entry>): (r: seq<Finding>)
    requires forall j :: 0 <= j < |t| ==> NumericEntry(t[j])
    ensures |r| <= |t| && (t != [] ==> |r| < |t|)
  {
    if |t| <= 1 then []
    else
      PairBreaks(rows, t[..|t| - 1])
      + (if Discontinuous(t[|t| - 2], t[|t| - 1]) then [BreakFinding(rows, t[|t| - 2], t[|t| - 1])] else [])
  }

  /** `PrevNumeric` points at the last entry of `NumericOnly` so far. */
  lemma {:induction false} PrevNumericIsLast(s: seq<Entry>, n: nat)
    requires n <= |s|
    ensures PrevNumeric(s, n).None? <==> NumericOnly(s[..n]) == []
    ensures PrevNumeric(s, n).Some? ==>
      NumericOnly(s[..n])[|NumericOnly(s[..n])| - 1] == s[PrevNumeric(s, n).value]
    decreases n
  {
    if n > 0 {
      assert s[..n][..n - 1] == s[..n - 1];
      PrevNumericIsLast(s, n - 1);
    }
  }

  /**
   * The loop's reading, with its skipped rows and carried `prev_to`, agrees
   * with the reference reading on consecutive numeric entries.
   */
  lemma {:induction false} BreaksFollowNumericPairs(rows: seq<Row>, s: seq<Entry>, n: nat)
    requires n <= |s|
    ensures BreakFindings(rows, s, n) == PairBreaks(rows, NumericOnly(s[..n]))
    decreases n
  {
    if n > 0 {
      var k := n - 1;
      var ns := NumericOnly(s[..k]);
      BreaksFollowNumericPairs(rows, s, k);
      NumericOnlyStep(s, k);
      BreakAtFollowsLast(rows, s, k);
      if NumericEntry(s[k]) {
        PairBreaksSnoc(rows, ns, s[k]);
        assert NumericOnly(s[..n]) == ns + [s[k]];
      } else {
        assert NumericOnly(s[..n]) == ns;
      }
    }
  }

  /** The loop compares entry `k` with the last numeric entry before it. */
  lemma BreakAtFollowsLast(rows: seq<Row>, s: seq<Entry>, k: nat)
    requires k < |s|
    ensures var ns := NumericOnly(s[..k]);
      BreakAt(rows, s, k) ==
        (if NumericEntry(s[k]) && ns != [] && Discontinuous(ns[|ns| - 1], s[k])
         then [BreakFinding(rows, ns[|ns| - 1], s[k])] else [])
  {
    PrevNumericIsLast(s, k);
  }

  lemma NumericOnlyStep(s: seq<Entry>, k: nat)
    requires k < |s|
    ensures NumericOnly(s[..k + 1]) == NumericOnly(s[..k]) + (if NumericEntry(s[k]) then [s[k]] else [])
  {
    assert s[..k + 1][..k] == s[..k];
  }

  lemma PairBreaksSnoc(rows: seq<Row>, t: seq<Entry>, e: Entry)
    requires forall j :: 0 <= j < |t| ==> NumericEntry(t[j])
    requires NumericEntry(e)
    ensures PairBreaks(rows, t + [e]) == PairBreaks(rows, t)
      + (if t != [] && Discontinuous(t[|t| - 1], e) then [BreakFinding(rows, t[|t| - 1], e)] else [])
  {
    var u := t + [e];
    assert u[..|u| - 1] == t;
  }

  lemma {:induction false} NoPairBreaks(rows: seq<Row>, t: seq<Entry>)
    requires forall j :: 0 <= j < |t| ==> NumericEntry(t[j])
    requires forall j :: 1 <= j < |t| ==> !Discontinuous(t[j - 1], t[j])
    ensures PairBreaks(rows, t) == []
    decreases |t|
  {
    if |t| > 1 {
      NoPairBreaks(rows, t[..|t| - 1]);
    }
  }

  /** A group whose numeric rows chain on every link has no continuity finding. */
  lemma ChainedGroupPasses(rows: seq<Row>, s: seq<Entry>)
    requires forall j :: 1 <= j < |NumericOnly(s)| ==> !Discontinuous(NumericOnly(s)[j - 1], NumericOnly(s)[j])
    ensures BreakFindings(rows, s, |s|) == []
  {
    BreaksFollowNumericPairs(rows, s, |s|);
    assert s[..|s|] == s;
    NoPairBreaks(rows, NumericOnly(s));
  }

  /** `f` reports row `f.recordNo.n - 1` of `rows` and carries that row's cells. */
  ghost predicate NamesRow(f: Finding, rows: seq<Row>) {
    f.recordNo.Ordinal? && 1 <= f.recordNo.n <= |rows| && f.cells == rows[f.recordNo.n - 1]
  }

  /** Every sorted entry of a group stands for a row of that group. */
  lemma SortedGroupRows(rows: seq<Row>, leader: nat)
    ensures forall e :: e in SortedGroup(rows, leader) ==> e.index < |rows| && e.index in Members(rows, leader)
  {
    SortedGroupOrdered(rows, leader);
    var es := Local(rows, leader);
    forall e | e in SortedGroup(rows, leader) ensures e.index < |rows| && e.index in Members(rows, leader) {
      assert e in multiset(es);
      var k :| 0 <= k < |es| && es[k] == e;
    }
  }

  lemma {:induction false} BreakFindingsNameEntries(rows: seq<Row>, s: seq<Entry>, n: nat)
    requires n <= |s|
    requires forall e :: e in s ==> e.index < |rows|
    ensures forall f :: f in BreakFindings(rows, s, n) ==> NamesRow(f, rows)
    decreases n
  {
    if n > 0 {
      BreakFindingsNameEntries(rows, s, n - 1);
      assert s[n - 1] in s;
      BreakAtNamesRow(rows, s, n - 1);
    }
  }

  lemma BreakAtNamesRow(rows: seq<Row>, s: seq<Entry>, k: nat)
    requires k < |s| && s[k].index < |rows|
    ensures forall f :: f in BreakAt(rows, s, k) ==> NamesRow(f, rows)
  {
  }

  lemma StartFindingsNameRows(rows: seq<Row>, key: GroupKey, s: seq<Entry>)
    requires forall e :: e in s ==> e.index < |rows|
    ensures forall f :: f in StartFindings(rows, key, s) ==> NamesRow(f, rows)
  {
    if s != [] {
      assert s[0] in s;
    }
  }

  lemma {:induction false} AllGroupFindingsNameRows(rows: seq<Row>, leaders: seq<nat>)
    ensures forall f :: f in AllGroupFindings(rows, leaders) ==> NamesRow(f, rows)
    decreases |leaders|
  {
    if leaders != [] {
      AllGroupFindingsNameRows(rows, leaders[..|leaders| - 1]);
      GroupFindingsNameRows(rows, leaders[|leaders| - 1]);
    }
  }

  lemma GroupFindingsNameRows(rows: seq<Row>, leader: nat)
    ensures forall f :: f in GroupFindings(rows, leader) ==> NamesRow(f, rows)
  {
    var s := SortedGroup(rows, leader);
    assert forall e :: e in s ==> e.index < |rows| by {
      SortedGroupRows(rows, leader);
    }
    StartFindingsNameRows(rows, KeyOf(RowAt(rows, leader)), s);
    BreakFindingsNameEntries(rows, s, |s|);
  }

  /**
   * Each continuity finding is a copy of a row of the table, numbered by
   * the row's position plus one.
   */
  lemma ContinuityFindingsNameRows(rows: seq<Row>)
    ensures forall f :: f in ContinuityFindings(rows) ==> NamesRow(f, rows)
  {
    AllGroupFindingsNameRows(rows, Leaders(rows));
  }
}
