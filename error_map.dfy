/**
 * The `errors` dict that the Link and BridgeInventory row checkers fill: an
 * insertion-ordered map from column name to message.  Assigning to a key
 * already present replaces its message and keeps its place, as a Python
 * dict does; a new key goes to the end.
 */
module ErrorMaps {
  import opened Wrappers

  type Entries = seq<(string, string)>

  /** `list(d.keys())`. */
  function Keys(e: Entries): (r: seq<string>)
    ensures |r| == |e|
  {
    if e == [] then [] else [e[0].0] + Keys(e[1..])
  }

  /** No key occurs twice, as in every dict. */
  predicate UniqueKeys(e: Entries) {
    e == [] || (e[0].0 !in Keys(e[1..]) && UniqueKeys(e[1..]))
  }

  /** `d.get(k)`. */
  function Get(e: Entries, k: string): (r: Option<string>)
    ensures r.Some? <==> k in Keys(e)
  {
    if e == [] then None
    else if e[0].0 == k then Some(e[0].1)
    else Get(e[1..], k)
  }

  /** `d[k] = m`. */
  function Put(e: Entries, k: string, m: string): (r: Entries)
    ensures Get(r, k) == Some(m)
  {
    if e == [] then [(k, m)]
    else if e[0].0 == k then [(k, m)] + e[1..]
    else
      var tail := Put(e[1..], k, m);
      assert ([e[0]] + tail)[1..] == tail;
      [e[0]] + tail
  }

  /** A key already present keeps its place; a new one goes to the end. */
  lemma {:induction false} PutKeys(e: Entries, k: string, m: string)
    ensures k in Keys(e) ==> Keys(Put(e, k, m)) == Keys(e)
    ensures k !in Keys(e) ==> Keys(Put(e, k, m)) == Keys(e) + [k]
  {
    if e != [] {
      if e[0].0 != k {
        PutKeys(e[1..], k, m);
        assert ([e[0]] + Put(e[1..], k, m))[1..] == Put(e[1..], k, m);
      } else {
        assert ([(k, m)] + e[1..])[1..] == e[1..];
      }
    }
  }

  /** An assignment leaves every other key's message as it was. */
  lemma {:induction false} PutOther(e: Entries, k: string, m: string, other: string)
    requires other != k
    ensures Get(Put(e, k, m), other) == Get(e, other)
  {
    if e != [] {
      if e[0].0 != k {
        PutOther(e[1..], k, m, other);
        assert ([e[0]] + Put(e[1..], k, m))[1..] == Put(e[1..], k, m);
      } else {
        assert ([(k, m)] + e[1..])[1..] == e[1..];
      }
    }
  }

  /** An assignment never makes a key occur twice. */
  lemma {:induction false} PutKeepsUnique(e: Entries, k: string, m: string)
    requires UniqueKeys(e)
    ensures UniqueKeys(Put(e, k, m))
  {
    if e != [] {
      if e[0].0 != k {
        PutKeys(e[1..], k, m);
        PutKeepsUnique(e[1..], k, m);
        assert ([e[0]] + Put(e[1..], k, m))[1..] == Put(e[1..], k, m);
      } else {
        assert ([(k, m)] + e[1..])[1..] == e[1..];
      }
    }
  }

  /** The `i`-th key is the column of the `i`-th entry. */
  lemma {:induction false} KeysAt(e: Entries, i: nat)
    requires i < |e|
    ensures Keys(e)[i] == e[i].0
    decreases i
  {
    if i > 0 {
      KeysAt(e[1..], i - 1);
    }
  }

  /** In a dict, looking up the column of an entry gives that entry's message. */
  lemma {:induction false} GetAt(e: Entries, i: nat)
    requires UniqueKeys(e) && i < |e|
    ensures Get(e, e[i].0) == Some(e[i].1)
    decreases i
  {
    if i > 0 {
      KeysAt(e[1..], i - 1);
      GetAt(e[1..], i - 1);
    }
  }

  /** `m` if there is one: a branch of an if-chain that may or may not assign. */
  function PutSome(e: Entries, k: string, m: Option<string>): (r: Entries)
    ensures m.None? ==> r == e
    ensures m.Some? ==> r == Put(e, k, m.value)
  {
    if m.Some? then Put(e, k, m.value) else e
  }

  /** The columns of `checks` that carry a message, in order. */
  function Present(checks: seq<(string, Option<string>)>): (r: seq<string>)
    ensures |r| <= |checks|
    decreases |checks|
  {
    if checks == [] then []
    else
      var last := checks[|checks| - 1];
      Present(checks[..|checks| - 1]) + (if last.1.Some? then [last.0] else [])
  }

  /** A column is among the present ones exactly when one of the checks gives it a message. */
  lemma {:induction false} PresentMeaning(checks: seq<(string, Option<string>)>, c: string)
    ensures c in Present(checks) <==> exists i :: 0 <= i < |checks| && checks[i].0 == c && checks[i].1.Some?
    decreases |checks|
  {
    if checks != [] {
      var n := |checks| - 1;
      PresentMeaning(checks[..n], c);
      if exists i :: 0 <= i < |checks| && checks[i].0 == c && checks[i].1.Some? {
        var i :| 0 <= i < |checks| && checks[i].0 == c && checks[i].1.Some?;
        if i < n {
          assert checks[..n][i] == checks[i];
        }
      }
    }
  }

  /** No column is present exactly when no check gave a message. */
  lemma PresentEmpty(checks: seq<(string, Option<string>)>)
    ensures Present(checks) == [] <==> forall i :: 0 <= i < |checks| ==> checks[i].1.None?
  {
    if Present(checks) != [] {
      PresentMeaning(checks, Present(checks)[0]);
    } else {
      forall i | 0 <= i < |checks| ensures checks[i].1.None? {
        PresentMeaning(checks, checks[i].0);
      }
    }
  }

  /** When every check gave a message, every column is present, in order. */
  lemma {:induction false} PresentAll(checks: seq<(string, Option<string>)>)
    requires forall i :: 0 <= i < |checks| ==> checks[i].1.Some?
    ensures |Present(checks)| == |checks|
    ensures forall i :: 0 <= i < |checks| ==> Present(checks)[i] == checks[i].0
    decreases |checks|
  {
    if checks != [] {
      var n := |checks| - 1;
      assert forall i :: 0 <= i < n ==> checks[..n][i] == checks[i];
      PresentAll(checks[..n]);
    }
  }

  predicate DistinctColumns(checks: seq<(string, Option<string>)>) {
    forall i, j :: 0 <= i < j < |checks| ==> checks[i].0 != checks[j].0
  }

  /** The dict that running `checks` in order leaves, starting from `{}`. */
  function Fill(checks: seq<(string, Option<string>)>): Entries
    decreases |checks|
  {
    if checks == [] then []
    else PutSome(Fill(checks[..|checks| - 1]), checks[|checks| - 1].0, checks[|checks| - 1].1)
  }

  lemma PrefixStep(checks: seq<(string, Option<string>)>, j: nat)
    requires j < |checks|
    ensures Fill(checks[..j + 1]) == PutSome(Fill(checks[..j]), checks[j].0, checks[j].1)
    ensures Present(checks[..j + 1]) == Present(checks[..j]) + (if checks[j].1.Some? then [checks[j].0] else [])
  {
    assert checks[..j + 1][..j] == checks[..j];
  }

  lemma FillStep(checks: seq<(string, Option<string>)>, k: nat)
    requires k < |checks|
    ensures Fill(checks[..k + 1]) == PutSome(Fill(checks[..k]), checks[k].0, checks[k].1)
  {
    assert checks[..k + 1][..k] == checks[..k];
  }

  /** Running one more check after `checks`. */
  lemma FillSnoc(checks: seq<(string, Option<string>)>, c: string, m: Option<string>)
    ensures Fill(checks + [(c, m)]) == PutSome(Fill(checks), c, m)
  {
    assert (checks + [(c, m)])[..|checks|] == checks;
  }

  /** The dict `e` is what the first `j` checks leave behind. */
  ghost predicate Records(e: Entries, checks: seq<(string, Option<string>)>, j: nat)
    requires j <= |checks|
  {
    UniqueKeys(e) && Keys(e) == Present(checks[..j])
    && forall i :: 0 <= i < j ==> Get(e, checks[i].0) == checks[i].1
  }

  /** One more check, on a column not assigned so far, extends the record by its message. */
  lemma RecordNext(e: Entries, checks: seq<(string, Option<string>)>, j: nat)
    requires DistinctColumns(checks) && j < |checks|
    requires Records(e, checks, j)
    ensures Records(PutSome(e, checks[j].0, checks[j].1), checks, j + 1)
  {
    var c := checks[j].0;
    PrefixStep(checks, j);
    PresentMeaning(checks[..j], c);
    assert c !in Keys(e);
    if checks[j].1.Some? {
      PutKeys(e, c, checks[j].1.value);
      PutKeepsUnique(e, c, checks[j].1.value);
      forall i | 0 <= i < j
        ensures Get(Put(e, c, checks[j].1.value), checks[i].0) == checks[i].1
      {
        PutOther(e, c, checks[j].1.value, checks[i].0);
      }
    }
  }

  /**
   * Running checks on distinct columns leaves exactly the failing columns,
   * in the order they ran, each with its own message.
   */
  lemma {:induction false} FillRecords(checks: seq<(string, Option<string>)>, j: nat)
    requires DistinctColumns(checks) && j <= |checks|
    ensures Records(Fill(checks[..j]), checks, j)
    decreases j
  {
    if j == 0 {
      assert checks[..0] == [];
    } else {
      var k := j - 1;
      var e := Fill(checks[..k]);
      FillRecords(checks, k);
      RecordNext(e, checks, k);
      FillStep(checks, k);
      assert Fill(checks[..j]) == PutSome(e, checks[k].0, checks[k].1);
    }
  }

  /** Running checks on distinct columns leaves only columns that some check names. */
  lemma FillColumns(checks: seq<(string, Option<string>)>, columns: seq<string>)
    requires DistinctColumns(checks) && |columns| == |checks|
    requires forall j :: 0 <= j < |checks| ==> checks[j].0 == columns[j]
    ensures forall i :: 0 <= i < |Fill(checks)| ==> Fill(checks)[i].0 in columns
  {
    var e := Fill(checks);
    FillRecords(checks, |checks|);
    assert checks[..|checks|] == checks;
    forall i | 0 <= i < |e| ensures e[i].0 in columns {
      KeysAt(e, i);
      PresentMeaning(checks, e[i].0);
    }
  }
}
