/**
 * The dashboard worklist of app.py: every patient, "Deceased" first, then
 * "Critical", "High", "Medium" and everything else, with the most recently
 * added patient (highest id) first within a tier; each row is then
 * annotated with the recommendation for its notes.
 */
module Worklist {
  import opened Optional
  import Triage
  import Advice
  import Records

  /** The CASE expression of the ORDER BY: total over all strings. */
  function Rank(priority: string): (r: nat)
    ensures r <= 4
  {
    if priority == Triage.Deceased then 0
    else if priority == Triage.Critical then 1
    else if priority == Triage.High then 2
    else if priority == Triage.Medium then 3
    else 4
  }

  /** The rank of each tier is its position in the severity order. */
  lemma RankFollowsTiers()
    ensures forall i :: 0 <= i < |Triage.Tiers| ==> Rank(Triage.Tiers[i]) == i
  {
  }

  /** Strings that are not one of the first four tiers share the last rank with "Low". */
  lemma OtherStringsRankLast(priority: string)
    ensures priority !in Triage.Tiers[..4] <==> Rank(priority) == 4
  {
    assert Triage.Tiers[..4] == [Triage.Deceased, Triage.Critical, Triage.High, Triage.Medium];
  }

  /** A higher severity score never puts a patient later in the worklist. */
  lemma RankFollowsScore(s1: int, s2: int)
    requires s1 <= s2
    ensures Rank(Triage.TierFor(s2)) <= Rank(Triage.TierFor(s1))
  {
  }

  // ---------------------------------------------------------------------------
  // The ORDER BY clause: rank, then id descending
  // ---------------------------------------------------------------------------

  /** `a` may stand before `b` in the worklist. */
  predicate Precedes(a: Records.Patient, b: Records.Patient)
  {
    Rank(a.priority) < Rank(b.priority) || (Rank(a.priority) == Rank(b.priority) && a.id >= b.id)
  }

  /**
   * `Precedes` is a total preorder, and two rows that precede each other
   * share their id and rank, so on rows with distinct ids it orders strictly.
   */
  lemma PrecedesIsTotalPreorder(a: Records.Patient, b: Records.Patient, c: Records.Patient)
    ensures Precedes(a, b) || Precedes(b, a)
    ensures Precedes(a, b) && Precedes(b, c) ==> Precedes(a, c)
    ensures Precedes(a, b) && Precedes(b, a) ==> a.id == b.id && Rank(a.priority) == Rank(b.priority)
  {
  }

  predicate Sorted(s: seq<Records.Patient>)
  {
    forall i, j :: 0 <= i < j < |s| ==> Precedes(s[i], s[j])
  }

  /** The id column is the table's primary key. */
  predicate DistinctIds(s: seq<Records.Patient>)
  {
    forall i, j :: 0 <= i < j < |s| ==> s[i].id != s[j].id
  }

  /** `x` placed in front of the first row of `s` it precedes. */
  function Insert(x: Records.Patient, s: seq<Records.Patient>): (r: seq<Records.Patient>)
    ensures |r| == |s| + 1
    ensures multiset(r) == multiset(s) + multiset{x}
  {
    if s == [] then [x]
    else if Precedes(x, s[0]) then [x] + s
    else
      assert s == [s[0]] + s[1..];
      [s[0]] + Insert(x, s[1..])
  }

  lemma {:induction false} InsertKeepsSorted(x: Records.Patient, s: seq<Records.Patient>)
    requires Sorted(s)
    ensures Sorted(Insert(x, s))
  {
    if s != [] && !Precedes(x, s[0]) {
      var rest := Insert(x, s[1..]);
      InsertKeepsSorted(x, s[1..]);
      forall y | y in rest
        ensures Precedes(s[0], y)
      {
        assert y in multiset(rest);
        if y != x {
          assert y in multiset(s[1..]);
          var j :| 0 <= j < |s[1..]| && s[1..][j] == y;
          assert s[j + 1] == y;
        }
      }
    }
  }

  /** The rows of the table in worklist order. */
  function Order(rows: seq<Records.Patient>): (r: seq<Records.Patient>)
    ensures Sorted(r)
    ensures |r| == |rows|
    ensures multiset(r) == multiset(rows)
  {
    if rows == [] then []
    else
      assert rows == [rows[0]] + rows[1..];
      var rest := Order(rows[1..]);
      InsertKeepsSorted(rows[0], rest);
      Insert(rows[0], rest)
  }

  /** Two sorted arrangements of the same rows, ids distinct, start with the same row. */
  lemma SameFirstRow(a: seq<Records.Patient>, b: seq<Records.Patient>)
    requires Sorted(a) && Sorted(b) && DistinctIds(a)
    requires multiset(a) == multiset(b) && a != []
    ensures b != [] && a[0] == b[0]
  {
    assert a[0] in multiset(b);
    assert b != [];
    assert b[0] in multiset(a);
    var k :| 0 <= k < |b| && b[k] == a[0];
    var m :| 0 <= m < |a| && a[m] == b[0];
    if m != 0 {
      assert false;
    }
  }

  /** With distinct ids there is exactly one worklist order of a set of rows. */
  lemma {:induction false} SortedUnique(a: seq<Records.Patient>, b: seq<Records.Patient>)
    requires Sorted(a) && Sorted(b) && DistinctIds(a)
    requires multiset(a) == multiset(b)
    ensures a == b
  {
    if a == [] {
      assert |b| == |multiset(b)|;
    } else {
      SameFirstRow(a, b);
      assert a == [a[0]] + a[1..];
      assert b == [b[0]] + b[1..];
      assert multiset(a[1..]) == multiset(a) - multiset{a[0]};
      assert multiset(b[1..]) == multiset(b) - multiset{b[0]};
      SortedUnique(a[1..], b[1..]);
    }
  }

  // ---------------------------------------------------------------------------
  // The dashboard rows
  // ---------------------------------------------------------------------------

  /** A row handed to the dashboard: the stored patient and, once set, its advice. */
  datatype Row = Row(patient: Records.Patient, recommendation: Option<string>)

  /** The loop that sets each row's recommendation in place. */
  method Annotate(rows: array<Row>)
    modifies rows
    ensures forall i :: 0 <= i < rows.Length ==>
      rows[i] == old(rows[i]).(recommendation := Some(Advice.Recommend(old(rows[i]).patient.notes)))
  {
    for i := 0 to rows.Length
      invariant forall k :: 0 <= k < i ==>
        rows[k] == old(rows[k]).(recommendation := Some(Advice.Recommend(old(rows[k]).patient.notes)))
      invariant forall k :: i <= k < rows.Length ==> rows[k] == old(rows[k])
    {
      var advice := Advice.GetRecommendation(rows[i].patient.notes);
      rows[i] := rows[i].(recommendation := Some(advice));
    }
  }

  /** The worklist the dashboard renders for the rows of the patients table. */
  method Dashboard(table: seq<Records.Patient>) returns (rows: array<Row>)
    ensures fresh(rows) && rows.Length == |table|
    ensures forall i :: 0 <= i < rows.Length ==> rows[i].patient == Order(table)[i]
    ensures forall i :: 0 <= i < rows.Length ==>
      rows[i].recommendation == Some(Advice.Recommend(rows[i].patient.notes))
  {
    var ordered := Order(table);
    rows := new Row[|ordered|](i requires 0 <= i < |ordered| => Row(ordered[i], None));
    Annotate(rows);
  }
}
