/** The state file `last_processed_district.txt` and the resume menu of the
    v4 and v6 scripts. */
module Checkpoint {
  import opened Common
  import opened PyStr

  /** What the state file is written with after district `idx` is saved:
      `f.write(str(idx))`. */
  function CheckpointText(idx: int): string {
    IntText(idx)
  }

  /** The start index of a resumed run: `int(f.read().strip()) + 1`, or 0 when
      the file is missing (`None`) or does not hold an integer (`int()`
      ignores surrounding whitespace itself, so the explicit strip changes
      nothing). */
  function ResumeIndex(stateFile: Option<string>): int {
    if stateFile.None? then 0
    else match ParseInt(stateFile.value)
      case Some(n) => n + 1
      case None => 0
  }

  /** Whitespace around the stored number, such as a trailing newline left
      by an editor, does not change where a run resumes. */
  lemma ResumeIndexIgnoresSpace(pre: string, t: string, post: string)
    requires AllSpace(pre) && AllSpace(post)
    ensures ResumeIndex(Some(pre + t + post)) == ResumeIndex(Some(t))
    ensures ResumeIndex(Some(Strip(t))) == ResumeIndex(Some(t))
  {
    ParseIntIgnoresSpace(pre, t, post);
  }

  /** A run resumed after district `idx` was checkpointed starts with the
      district after it. */
  lemma ResumeAfterCheckpoint(idx: int)
    ensures ResumeIndex(Some(CheckpointText(idx))) == idx + 1
  {
    IntTextRoundTrip(idx);
  }

  /** The three execution options of the menu. */
  datatype Choice = Overwrite | FillMissing | Resume

  /** `int(choice)` for an answer in `['1', '2', '3']`, `None` for the others. */
  function ChoiceOf(answer: string): (c: Option<Choice>)
    ensures c.Some? <==> answer == "1" || answer == "2" || answer == "3"
  {
    if answer == "1" then Some(Overwrite)
    else if answer == "2" then Some(FillMissing)
    else if answer == "3" then Some(Resume)
    else None
  }

  /** The answer number the user typed for each choice. */
  function Number(c: Choice): string {
    match c
    case Overwrite => "1"
    case FillMissing => "2"
    case Resume => "3"
  }

  lemma ChoiceOfNumber(c: Choice)
    ensures ChoiceOf(Number(c)) == Some(c)
  {
  }

  /** Reference definition of `get_user_choice`: the first stripped answer that
      is a menu number, with the number of answers read; `None` when input runs
      out first (the `EOFError` of `input()`). */
  function FirstChoice(answers: seq<string>): (r: Option<(Choice, nat)>)
    ensures r.Some? ==> 1 <= r.value.1 <= |answers|
                        && ChoiceOf(Strip(answers[r.value.1 - 1])) == Some(r.value.0)
                        && forall j | 0 <= j < r.value.1 - 1 :: ChoiceOf(Strip(answers[j])).None?
    ensures r.None? ==> forall j | 0 <= j < |answers| :: ChoiceOf(Strip(answers[j])).None?
    decreases |answers|
  {
    if answers == [] then None
    else match ChoiceOf(Strip(answers[0]))
      case Some(c) => Some((c, 1))
      case None =>
        match FirstChoice(answers[1..])
        case None => None
        case Some(p) => Some((p.0, p.1 + 1))
  }

  /** The first menu number in the answers decides the choice. */
  lemma {:induction false} FirstChoiceAt(answers: seq<string>, k: nat)
    requires k < |answers| && ChoiceOf(Strip(answers[k])).Some?
    requires forall j | 0 <= j < k :: ChoiceOf(Strip(answers[j])).None?
    ensures FirstChoice(answers) == Some((ChoiceOf(Strip(answers[k])).value, k + 1))
    decreases k
  {
    if k > 0 {
      var rest := answers[1..];
      assert rest[k - 1] == answers[k];
      forall j | 0 <= j < k - 1
        ensures ChoiceOf(Strip(rest[j])).None?
      {
        assert rest[j] == answers[j + 1];
      }
      FirstChoiceAt(rest, k - 1);
    }
  }

  /** Input that holds no menu number gives no choice. */
  lemma NoChoice(answers: seq<string>)
    requires forall j | 0 <= j < |answers| :: ChoiceOf(Strip(answers[j])).None?
    ensures FirstChoice(answers).None?
  {
  }

  /** The prompt loop: re-ask while the stripped answer is not `'1'`, `'2'` or
      `'3'`. */
  method GetUserChoice(answers: seq<string>) returns (choice: Option<Choice>, used: nat)
    ensures choice.Some? <==> FirstChoice(answers).Some?
    ensures choice.Some? ==> (choice.value, used) == FirstChoice(answers).value
  {
    if answers == [] {
      return None, 0;
    }
    var answer := Strip(answers[0]);
    used := 1;
    while ChoiceOf(answer).None?
      invariant 1 <= used <= |answers|
      invariant answer == Strip(answers[used - 1])
      invariant forall j | 0 <= j < used - 1 :: ChoiceOf(Strip(answers[j])).None?
      decreases |answers| - used
    {
      if used == |answers| {
        NoChoice(answers);
        return None, used;
      }
      answer := Strip(answers[used]);
      used := used + 1;
    }
    choice := ChoiceOf(answer);
    FirstChoiceAt(answers, used - 1);
  }
}
