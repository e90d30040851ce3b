/** The free-text parser of an officer's detail modal (`get_officer_details`,
    the same code in v1, v4 and v6): every non-blank stripped line goes to the
    first field whose keyword it mentions, and the value is the stripped text
    after the last occurrence of the field's full label. */
module DetailParser {
  import opened Common
  import opened PyStr

  /** The seven detail fields, named after the branches of the `elif` chain. */
  datatype Field =
    | Designation
    | PresentPosting
    | Relative
    | JoinInJudicial
    | CurrentDistrict
    | CurrentTaluka
    | Email

  /** Where a field's test stands in the `elif` chain. */
  function Rank(f: Field): nat {
    match f
    case Designation => 0
    case PresentPosting => 1
    case Relative => 2
    case JoinInJudicial => 3
    case CurrentDistrict => 4
    case CurrentTaluka => 5
    case Email => 6
  }

  /** The dictionary key a field is stored under; it is also the label the line
      is split on. */
  function Key(f: Field): string {
    match f
    case Designation => "Designation"
    case PresentPosting => "Date of Present Posting"
    case Relative => "Father/Mother/Husband Name"
    case JoinInJudicial => "Join in Judicial"
    case CurrentDistrict => "Current District"
    case CurrentTaluka => "Current Taluka"
    case Email => "E-mail ID"
  }

  lemma KeyInjective(f: Field, g: Field)
    ensures Key(f) == Key(g) ==> f == g
  {
    if f != g {
      assert |Key(f)| != |Key(g)| || Key(f)[0] != Key(g)[0];
    }
  }

  /** The keyword test of a field's branch (note the shorter keywords:
      "Present Posting", "Father"/"Mother"/"Husband", "E-mail"). */
  predicate Mentions(line: string, f: Field) {
    match f
    case Designation => Contains(line, "Designation")
    case PresentPosting => Contains(line, "Present Posting")
    case Relative => Contains(line, "Father") || Contains(line, "Mother") || Contains(line, "Husband")
    case JoinInJudicial => Contains(line, "Join in Judicial")
    case CurrentDistrict => Contains(line, "Current District")
    case CurrentTaluka => Contains(line, "Current Taluka")
    case Email => Contains(line, "E-mail")
  }

  /** The branch of the `elif` chain a line takes, if any. */
  function Classify(line: string): Option<Field> {
    if Mentions(line, Designation) then Some(Designation)
    else if Mentions(line, PresentPosting) then Some(PresentPosting)
    else if Mentions(line, Relative) then Some(Relative)
    else if Mentions(line, JoinInJudicial) then Some(JoinInJudicial)
    else if Mentions(line, CurrentDistrict) then Some(CurrentDistrict)
    else if Mentions(line, CurrentTaluka) then Some(CurrentTaluka)
    else if Mentions(line, Email) then Some(Email)
    else None
  }

  /** A line is assigned to a field exactly when it mentions that field and no
      field tested earlier; it is assigned to none exactly when it mentions none. */
  lemma ClassifyIsFirstMention(line: string, f: Field)
    ensures Classify(line) == Some(f)
            <==> Mentions(line, f) && forall g: Field :: Rank(g) < Rank(f) ==> !Mentions(line, g)
    ensures Classify(line) == None <==> forall g: Field :: !Mentions(line, g)
  {
    match f
    case Designation =>
    case PresentPosting =>
    case Relative =>
    case JoinInJudicial =>
    case CurrentDistrict =>
    case CurrentTaluka =>
    case Email =>
  }

  /** The stored value: `line.split(Key(f))[-1].strip()`. */
  function FieldText(line: string, f: Field): string {
    Strip(AfterLast(line, Key(f)))
  }

  /** `[l.strip() for l in pieces if l.strip()]` */
  function NonBlank(pieces: seq<string>): (lines: seq<string>)
    ensures |lines| <= |pieces|
    ensures forall k | 0 <= k < |lines| :: lines[k] != [] && Strip(lines[k]) == lines[k]
    decreases |pieces|
  {
    if pieces == [] then []
    else
      var l := Strip(pieces[0]);
      StripIdempotent(pieces[0]);
      (if l != [] then [l] else []) + NonBlank(pieces[1..])
  }

  /** `[line.strip() for line in text.split('\n') if line.strip()]` */
  function Lines(text: string): seq<string> {
    NonBlank(Split(text, "\n"))
  }

  /** The dictionary the line loop builds: lines are taken in order and a later
      line for the same field overwrites an earlier one. */
  function Parse(lines: seq<string>): map<string, string>
    decreases |lines|
  {
    if lines == [] then map[]
    else
      Assign(Parse(lines[..|lines| - 1]), lines[|lines| - 1])
  }

  /** One pass of the loop body: the line's branch, if any, writes its field. */
  function Assign(d: map<string, string>, line: string): map<string, string> {
    match Classify(line)
    case None => d
    case Some(f) => d[Key(f) := FieldText(line, f)]
  }

  lemma ParseStep(lines: seq<string>, i: nat)
    requires i < |lines|
    ensures Parse(lines[..i + 1]) == Assign(Parse(lines[..i]), lines[i])
  {
    assert lines[..i + 1][..i] == lines[..i];
  }

  /** What `get_officer_details` returns for the modal's text; `None` stands for
      a modal that could not be opened (click retries exhausted, wait timed
      out), where the function returns the empty dictionary. */
  function Details(modal: Option<string>): map<string, string> {
    if modal.None? || modal.value == "" then map[] else Parse(Lines(modal.value))
  }

  /** The parsing part of `get_officer_details`. */
  method GetOfficerDetails(modal: Option<string>) returns (details: map<string, string>)
    ensures details == Details(modal)
  {
    details := map[];
    if modal.None? {
      return;
    }
    var text := modal.value;
    if text != "" {
      details := ParseLines(Lines(text));
    }
  }

  /** The `for line in lines` loop with its `elif` chain. */
  method ParseLines(lines: seq<string>) returns (details: map<string, string>)
    ensures details == Parse(lines)
  {
    details := map[];
    var i := 0;
    while i < |lines|
      invariant 0 <= i <= |lines|
      invariant details == Parse(lines[..i])
    {
      var line := lines[i];
      var branch := Classify(line);
      if branch.Some? {
        var f := branch.value;
        details := details[Key(f) := Strip(AfterLast(line, Key(f)))];
      }
      ParseStep(lines, i);
      i := i + 1;
    }
    assert lines[..i] == lines;
  }

  /** One line adds its own field's key and no other. */
  lemma AssignDomain(d: map<string, string>, line: string, f: Field)
    ensures Key(f) in Assign(d, line) <==> Key(f) in d || Classify(line) == Some(f)
  {
    match Classify(line)
    case None =>
    case Some(g) =>
      KeyInjective(f, g);
  }

  /** The parsed dictionary holds a field exactly when some line was assigned
      to that field. */
  lemma {:induction false} ParseDomain(lines: seq<string>, f: Field)
    ensures Key(f) in Parse(lines) <==> exists i | 0 <= i < |lines| :: Classify(lines[i]) == Some(f)
    decreases |lines|
  {
    if lines != [] {
      var init := lines[..|lines| - 1];
      var last := lines[|lines| - 1];
      ParseDomain(init, f);
      AssignDomain(Parse(init), last, f);
      if exists i | 0 <= i < |init| :: Classify(init[i]) == Some(f) {
        var i :| 0 <= i < |init| && Classify(init[i]) == Some(f);
        assert lines[i] == init[i];
      }
      if exists i | 0 <= i < |lines| :: Classify(lines[i]) == Some(f) {
        var i :| 0 <= i < |lines| && Classify(lines[i]) == Some(f);
        if i < |init| {
          assert init[i] == lines[i];
        }
      }
    }
  }

  /** The parsed dictionary holds nothing but the seven detail keys. */
  lemma {:induction false} ParseKeysAreDetailKeys(lines: seq<string>)
    ensures forall k | k in Parse(lines) :: exists f: Field :: Key(f) == k
    decreases |lines|
  {
    if lines != [] {
      var init := lines[..|lines| - 1];
      ParseKeysAreDetailKeys(init);
      forall k | k in Parse(lines)
        ensures exists f: Field :: Key(f) == k
      {
        var branch := Classify(lines[|lines| - 1]);
        if branch.Some? && k == Key(branch.value) {
        } else {
          assert k in Parse(init);
        }
      }
    }
  }

  /** The value stored for a field comes from the last line assigned to it. */
  lemma {:induction false} ParseLastLineWins(lines: seq<string>, i: nat, f: Field)
    requires i < |lines| && Classify(lines[i]) == Some(f)
    requires forall j | i < j < |lines| :: Classify(lines[j]) != Some(f)
    ensures Key(f) in Parse(lines) && Parse(lines)[Key(f)] == FieldText(lines[i], f)
    decreases |lines|
  {
    var init := lines[..|lines| - 1];
    var last := lines[|lines| - 1];
    if i < |lines| - 1 {
      forall j | i < j < |init|
        ensures Classify(init[j]) != Some(f)
      {
        assert init[j] == lines[j];
      }
      ParseLastLineWins(init, i, f);
      assert init[i] == lines[i];
      match Classify(last)
      case None =>
      case Some(g) =>
        KeyInjective(f, g);
    }
  }
}
