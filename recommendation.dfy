/**
 * The care-recommendation lookup (`get_recommendation` in app.py).
 *
 * Absent or empty notes give the sentinel "No recommendation". Otherwise the
 * notes are lowercased and an ordered table of ten (keyword, advice) pairs
 * is scanned; the advice of the first keyword that occurs anywhere in the
 * notes is returned, and "No recommendation available" when none occurs.
 */
module Advice {
  import opened Optional

  const NoNotes: string := "No recommendation"
  const NoMatch: string := "No recommendation available"

  /** The keyword table, in the insertion order that decides ties. */
  const Table: seq<(string, string)> := [
    ("cold", "Prescribe antihistamines and rest."),
    ("fever", "Give paracetamol and monitor temperature."),
    ("fracture", "Immobilize limb and send for X-ray."),
    ("bleeding", "Apply pressure dressing and evaluate for transfusion."),
    ("infection", "Start IV antibiotics immediately."),
    ("asthma", "Use nebulizer bronchodilator and monitor breathing."),
    ("heart attack", "Administer aspirin and prepare ECG & oxygen."),
    ("burn", "Cool area with saline and apply sterile burn dressing."),
    ("stroke", "Immediate CT scan and stroke protocol activation."),
    ("covid", "Isolate patient, oxygen support, antiviral therapy.")
  ]

  // ---------------------------------------------------------------------------
  // Lowercasing (ASCII letters only)
  // ---------------------------------------------------------------------------

  predicate IsUpper(c: char)
  {
    'A' <= c <= 'Z'
  }

  function LowerChar(c: char): (d: char)
    ensures !IsUpper(d)
    ensures !IsUpper(c) ==> d == c
    ensures IsUpper(c) ==> d == "abcdefghijklmnopqrstuvwxyz"[c as int - 'A' as int]
  {
    if IsUpper(c) then (c as int + 32) as char else c
  }

  /** A string in which no ASCII capital letter occurs. */
  ghost predicate IsLower(s: string)
  {
    forall i :: 0 <= i < |s| ==> !IsUpper(s[i])
  }

  function Lower(s: string): (r: string)
    ensures |r| == |s|
    ensures forall i :: 0 <= i < |s| ==> r[i] == LowerChar(s[i])
    ensures IsLower(r)
  {
    if s == [] then [] else [LowerChar(s[0])] + Lower(s[1..])
  }

  /** Lowercasing leaves lowercase text alone, so doing it twice changes nothing. */
  lemma LowerOfLower(s: string)
    requires IsLower(s)
    ensures Lower(s) == s
  {
  }

  // ---------------------------------------------------------------------------
  // Substring containment (Python's `keyword in notes`)
  // ---------------------------------------------------------------------------

  /** `pat` occurs in `text` at position `i`. */
  ghost predicate OccursAt(pat: string, text: string, i: int)
  {
    0 <= i && i + |pat| <= |text| && text[i..i + |pat|] == pat
  }

  ghost predicate Occurs(pat: string, text: string)
  {
    exists i :: OccursAt(pat, text, i)
  }

  /** Past the first character, an occurrence in `text` is one in `text[1..]`. */
  lemma OccursAtShift(pat: string, text: string, i: int)
    requires 1 <= i && i + |pat| <= |text|
    ensures OccursAt(pat, text, i) <==> OccursAt(pat, text[1..], i - 1)
  {
    assert text[1..][i - 1..i - 1 + |pat|] == text[i..i + |pat|];
  }

  /** When `pat` is not a prefix of `text`, it occurs in `text` exactly when it occurs after the first character. */
  lemma OccursPastHead(pat: string, text: string)
    requires |pat| <= |text| && text[..|pat|] != pat
    ensures Occurs(pat, text) <==> Occurs(pat, text[1..])
  {
    if Occurs(pat, text[1..]) {
      var i :| OccursAt(pat, text[1..], i);
      OccursAtShift(pat, text, i + 1);
    }
    if Occurs(pat, text) {
      var i :| OccursAt(pat, text, i);
      assert i != 0;
      OccursAtShift(pat, text, i);
    }
  }

  /** Substring test by sliding along the text: Python's `pat in text`. */
  function Contains(text: string, pat: string): (b: bool)
    ensures b <==> Occurs(pat, text)
    decreases |text|
  {
    if |pat| > |text| then false
    else if text[..|pat|] == pat then
      assert OccursAt(pat, text, 0);
      true
    else
      OccursPastHead(pat, text);
      Contains(text[1..], pat)
  }

  // ---------------------------------------------------------------------------
  // The lookup
  // ---------------------------------------------------------------------------

  /** The advice of the first entry whose keyword occurs in `text`, if any. */
  function FirstMatch(table: seq<(string, string)>, text: string): (r: Option<string>)
    ensures r == None <==> forall i :: 0 <= i < |table| ==> !Occurs(table[i].0, text)
    ensures r.Some? ==> exists i :: 0 <= i < |table| && r.value == table[i].1
  {
    if table == [] then None
    else if Contains(text, table[0].0) then Some(table[0].1)
    else
      var rest := FirstMatch(table[1..], text);
      assert forall i :: 1 <= i < |table| ==> table[i] == table[1..][i - 1];
      rest
  }

  /** Entry `i` is the first entry of `table` whose keyword occurs in `text`. */
  ghost predicate FirstHit(table: seq<(string, string)>, text: string, i: int)
  {
    && 0 <= i < |table|
    && Occurs(table[i].0, text)
    && forall j :: 0 <= j < i ==> !Occurs(table[j].0, text)
  }

  lemma {:induction false} FirstMatchIsFirstHit(table: seq<(string, string)>, text: string)
    ensures forall i :: FirstHit(table, text, i) ==> FirstMatch(table, text) == Some(table[i].1)
  {
    if table != [] {
      FirstMatchIsFirstHit(table[1..], text);
      forall i | FirstHit(table, text, i)
        ensures FirstMatch(table, text) == Some(table[i].1)
      {
        if i > 0 {
          assert FirstHit(table[1..], text, i - 1);
        }
      }
      if !Occurs(table[0].0, text) && FirstMatch(table[1..], text) == None {
        forall i | 0 <= i < |table|
          ensures !Occurs(table[i].0, text)
        {
          if i > 0 {
            assert table[i] == table[1..][i - 1];
          }
        }
      }
    }
  }

  /** The advice returned for the notes of one patient. */
  function Recommend(notes: Option<string>): (r: string)
    ensures notes == None || notes == Some("") ==> r == NoNotes
    ensures r == NoNotes || r == NoMatch || exists i :: 0 <= i < |Table| && r == Table[i].1
  {
    if notes == None || notes.value == "" then NoNotes
    else match FirstMatch(Table, Lower(notes.value))
      case Some(advice) => advice
      case None => NoMatch
  }

  /**
   * The lookup as the source runs it: an early return for missing notes,
   * then a scan of the table that returns at the first keyword found.
   */
  method GetRecommendation(notes: Option<string>) returns (r: string)
    ensures r == Recommend(notes)
  {
    if notes == None || notes.value == "" {
      return NoNotes;
    }
    var lowered := Lower(notes.value);
    for i := 0 to |Table|
      invariant FirstMatch(Table[i..], lowered) == FirstMatch(Table, lowered)
    {
      assert Table[i..][1..] == Table[i + 1..];
      if Contains(lowered, Table[i].0) {
        return Table[i].1;
      }
    }
    return NoMatch;
  }

  // ---------------------------------------------------------------------------
  // Properties of the lookup
  // ---------------------------------------------------------------------------

  /** Every keyword in the table is lowercase and non-empty. */
  lemma KeywordsLower()
    ensures forall i :: 0 <= i < |Table| ==> IsLower(Table[i].0) && Table[i].0 != []
  {
  }

  /**
   * For present, non-empty notes the result is the advice of the first
   * table entry, in table order, whose keyword is a substring of the
   * lowered notes, and the no-match sentinel when there is none.
   */
  lemma {:induction false} RecommendIsFirstHit(notes: string)
    requires notes != ""
    ensures (forall i :: 0 <= i < |Table| ==> !Occurs(Table[i].0, Lower(notes)))
      ==> Recommend(Some(notes)) == NoMatch
    ensures forall i :: FirstHit(Table, Lower(notes), i) ==> Recommend(Some(notes)) == Table[i].1
  {
    FirstMatchIsFirstHit(Table, Lower(notes));
  }

  /** Missing or empty notes give the first sentinel, never the second. */
  lemma EmptyNotes()
    ensures Recommend(None) == NoNotes && Recommend(Some("")) == NoNotes
    ensures NoNotes != NoMatch
  {
  }

  /** Matching ignores case: lowering the notes first gives the same advice. */
  lemma CaseInsensitive(notes: string)
    ensures Recommend(Some(Lower(notes))) == Recommend(Some(notes))
  {
    LowerOfLower(Lower(notes));
  }

  /** Two texts that differ only in the case of ASCII letters. */
  ghost predicate SameUpToCase(a: string, b: string)
  {
    |a| == |b| && forall i :: 0 <= i < |a| ==> LowerChar(a[i]) == LowerChar(b[i])
  }

  /** Notes that differ only in the case of ASCII letters get the same advice. */
  lemma CaseBlind(a: string, b: string)
    requires SameUpToCase(a, b)
    ensures Recommend(Some(a)) == Recommend(Some(b))
  {
    assert Lower(a) == Lower(b);
  }

  /**
   * The report builds its recommendation with its own guard: `notes or ""`
   * and then a call only for non-empty notes. It agrees with the plain call.
   */
  function ReportRecommendation(notesField: Option<string>): (r: string)
    ensures r == Recommend(notesField)
  {
    var notes := if notesField.Some? then notesField.value else "";
    if notes != "" then Recommend(Some(notes)) else NoNotes
  }

  /** A keyword with a letter the text lacks cannot occur in it. */
  lemma AbsentLetter(pat: string, text: string, k: int)
    requires 0 <= k < |pat| && pat[k] !in text
    ensures !Occurs(pat, text)
  {
  }

  /** For notes already in lowercase, the first hit in the notes themselves decides. */
  lemma LowerNotesFirstHit(notes: string, i: int)
    requires notes != "" && IsLower(notes) && FirstHit(Table, notes, i)
    ensures Recommend(Some(notes)) == Table[i].1
  {
    LowerOfLower(notes);
    RecommendIsFirstHit(notes);
  }

  lemma LowerNotesNoHit(notes: string)
    requires notes != "" && IsLower(notes)
    requires forall i :: 0 <= i < |Table| ==> !Occurs(Table[i].0, notes)
    ensures Recommend(Some(notes)) == NoMatch
  {
    LowerOfLower(notes);
    RecommendIsFirstHit(notes);
  }

  lemma WorkedCold(notes: string)
    requires notes == "patient has mild cold"
    ensures Recommend(Some(notes)) == Table[0].1
  {
    assert OccursAt(Table[0].0, notes, 17);
    LowerNotesFirstHit(notes, 0);
  }

  /** Containment is a plain substring test, so "scold" matches "cold". */
  lemma ScoldingCaseOnly(notes: string, lowered: string)
    requires notes == "Scolding" && lowered == "scolding"
    ensures SameUpToCase(notes, lowered)
  {
  }

  lemma WorkedLowerScold(lowered: string)
    requires lowered == "scolding"
    ensures Recommend(Some(lowered)) == Table[0].1
  {
    assert OccursAt(Table[0].0, lowered, 1);
    LowerNotesFirstHit(lowered, 0);
  }

  lemma WorkedScold(notes: string, lowered: string)
    requires notes == "Scolding" && lowered == "scolding"
    ensures Recommend(Some(notes)) == Table[0].1
  {
    ScoldingCaseOnly(notes, lowered);
    CaseBlind(notes, lowered);
    WorkedLowerScold(lowered);
  }

  lemma FeverIsFirstHit(notes: string)
    requires notes == "fever and infection noted"
    ensures FirstHit(Table, notes, 1)
  {
    AbsentLetter(Table[0].0, notes, 2);
    assert OccursAt(Table[1].0, notes, 0);
  }

  /** Both "fever" and "infection" occur; the earlier table entry wins. */
  lemma WorkedFever(notes: string)
    requires notes == "fever and infection noted"
    ensures Recommend(Some(notes)) == Table[1].1
  {
    FeverIsFirstHit(notes);
    LowerNotesFirstHit(notes, 1);
  }

  lemma NoKeywordOccurs(notes: string)
    requires notes == "no known issues"
    ensures forall i :: 0 <= i < |Table| ==> !Occurs(Table[i].0, notes)
  {
    AbsentLetter(Table[0].0, notes, 0);
    AbsentLetter(Table[1].0, notes, 0);
    AbsentLetter(Table[2].0, notes, 0);
    AbsentLetter(Table[3].0, notes, 0);
    AbsentLetter(Table[4].0, notes, 2);
    AbsentLetter(Table[5].0, notes, 0);
    AbsentLetter(Table[6].0, notes, 0);
    AbsentLetter(Table[7].0, notes, 0);
    AbsentLetter(Table[8].0, notes, 1);
    AbsentLetter(Table[9].0, notes, 0);
  }

  lemma WorkedNone(notes: string)
    requires notes == "no known issues"
    ensures Recommend(Some(notes)) == NoMatch
  {
    NoKeywordOccurs(notes);
    LowerNotesNoHit(notes);
  }

  lemma MildColdCaseOnly(notes: string, lowered: string)
    requires notes == "Mild COLD" && lowered == "mild cold"
    ensures SameUpToCase(notes, lowered)
  {
  }

  lemma WorkedMildCold(lowered: string)
    requires lowered == "mild cold"
    ensures Recommend(Some(lowered)) == Table[0].1
  {
    assert OccursAt(Table[0].0, lowered, 5);
    LowerNotesFirstHit(lowered, 0);
  }

  /** A capitalised keyword is found like its lowercase form. */
  lemma WorkedUpperCold(notes: string, lowered: string)
    requires notes == "Mild COLD" && lowered == "mild cold"
    ensures Recommend(Some(notes)) == Table[0].1
  {
    MildColdCaseOnly(notes, lowered);
    CaseBlind(notes, lowered);
    WorkedMildCold(lowered);
  }
}
