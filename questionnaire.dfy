/**
 * The questionnaire: the per-user session (`stateUser` entries), the step order, the operator
 * catalogue, and what each step does with an incoming message.
 */
module Questionnaire {
  import opened Wrappers
  import opened Ids
  import opened JsText
  import opened Requests
  import opened Inbound

  /** The steps in the order they are answered. */
  datatype Step = FullName | Operator | OperatorId | InviteCode | Screenshot | Confirm

  function Index(s: Step): nat {
    match s
    case FullName => 0
    case Operator => 1
    case OperatorId => 2
    case InviteCode => 3
    case Screenshot => 4
    case Confirm => 5
  }

  /** A `stateUser` entry; absent fields are the ones never set. */
  datatype UserState = UserState(step: Option<Step>, requestId: Option<RequestId>, userDbId: Option<UserId>)

  /** `getUserState` of a user without an entry: `{}`. */
  const NoSession: UserState := UserState(None, None, None)

  /** `{ ...current, ...data }`: the fields `data` sets replace those of `current`. */
  function Merge(current: UserState, data: UserState): UserState {
    UserState(
      if data.step.Some? then data.step else current.step,
      if data.requestId.Some? then data.requestId else current.requestId,
      if data.userDbId.Some? then data.userDbId else current.userDbId)
  }

  /** `{ step }`: a patch that moves the session to a step and keeps everything else. */
  function AtStep(s: Step): UserState {
    UserState(Some(s), None, None)
  }

  /** Moving the session to a step changes the step only; the request stays the same. */
  lemma MergeStep(current: UserState, s: Step)
    ensures Merge(current, AtStep(s)) == current.(step := Some(s))
  {
  }

  // ---------------------------------------------------------------------------------------------
  // operators

  datatype OperatorEntry = OperatorEntry(key: string, name: string)

  /** `OPERATORS` (the affiliate links are display only). */
  const Operators: seq<OperatorEntry> := [
    OperatorEntry("EUROBET", "Eurobet"),
    OperatorEntry("BWIN", "bwin"),
    OperatorEntry("BETSSON", "Betsson"),
    OperatorEntry("STARCASINO", "Starcasino")
  ]

  /** The label of the first entry with the key, if any. */
  function FindLabel(ops: seq<OperatorEntry>, key: string): (l: Option<string>)
    ensures l.Some? <==> exists i :: 0 <= i < |ops| && ops[i].key == key
    ensures l.Some? ==> exists i :: 0 <= i < |ops| && ops[i].key == key && l.value == ops[i].name
                                    && forall j :: 0 <= j < i ==> ops[j].key != key
  {
    if ops == [] then None
    else if ops[0].key == key then Some(ops[0].name)
    else
      var rest := FindLabel(ops[1..], key);
      assert forall i :: 1 <= i < |ops| ==> ops[i] == ops[1..][i - 1];
      rest
  }

  /** `operatorLabelFromKey(key)`: the catalogue's label for the key, or the key itself. */
  function OperatorLabel(key: string): string {
    Or(FindLabel(Operators, key), key)
  }

  /** Each of the four keys the operator buttons send has its own label; any other key comes back unchanged. */
  lemma OperatorLabels(key: string)
    ensures OperatorLabel("EUROBET") == "Eurobet" && OperatorLabel("BWIN") == "bwin"
    ensures OperatorLabel("BETSSON") == "Betsson" && OperatorLabel("STARCASINO") == "Starcasino"
    ensures (forall i :: 0 <= i < |Operators| ==> Operators[i].key != key) ==> OperatorLabel(key) == key
  {
  }

  // ---------------------------------------------------------------------------------------------
  // steps

  /** Minimum trimmed lengths of the typed answers. */
  const MinFullName: nat := 3
  const MinOperatorId: nat := 2
  const MinInviteCode: nat := 4

  /** Why an answer is asked for again: the wrong kind of message, or too short a text. */
  datatype Rejection = WrongKind | TooShort

  /** What the step handler does with a message. */
  datatype StepResult =
    | Store(patch: Patch, next: Step)   // write the answer, move to the next step
    | Retry(reason: Rejection)          // ask again; step and row untouched
    | Remind                            // at CONFIRM: point at the buttons
    | Ignore                            // at OPERATOR: the buttons answer it, a message does nothing

  /** A typed answer: text, trimmed, at least `min` characters long. */
  function TypedAnswer(p: Payload, min: nat): Result<string, Rejection> {
    match TextOf(p)
    case None => Err(WrongKind)
    case Some(t) => if |Trim(t)| < min then Err(TooShort) else Ok(Trim(t))
  }

  /** A typed answer is taken exactly when the message is text whose trim is long enough. */
  lemma TypedAnswerAccepts(p: Payload, min: nat)
    requires min > 0
    ensures TypedAnswer(p, min).Ok? <==> p.Text? && |Trim(p.text)| >= min
  {
    if p.Text? && p.text == "" {
      assert |Trim(p.text)| == 0;
    }
  }

  /** The router's questionnaire branch for the user's current step. */
  function Advance(step: Step, p: Payload): StepResult {
    match step
    case FullName =>
      (match TypedAnswer(p, MinFullName)
       case Ok(n) => Store(SetFullName(n), Operator)
       case Err(e) => Retry(e))
    case Operator => Ignore
    case OperatorId =>
      (match TypedAnswer(p, MinOperatorId)
       case Ok(v) => Store(SetOperatorUserId(v), InviteCode)
       case Err(e) => Retry(e))
    case InviteCode =>
      (match TypedAnswer(p, MinInviteCode)
       case Ok(c) => Store(SetInviteCode(Some(ToUpper(c))), Screenshot)
       case Err(e) => Retry(e))
    case Screenshot =>
      (match PhotoOf(p)
       case Some(f) => Store(SetScreenshot(f, "image"), Confirm)
       case None =>
         match DocumentOf(p)
         case Some(f) => Store(SetScreenshot(f, Or(p.mimeType, "document")), Confirm)
         case None => Retry(WrongKind))
    case Confirm => Remind
  }

  /** An answer the step accepts, stated on the message itself. */
  predicate Acceptable(step: Step, p: Payload) {
    match step
    case FullName => p.Text? && |Trim(p.text)| >= MinFullName
    case OperatorId => p.Text? && |Trim(p.text)| >= MinOperatorId
    case InviteCode => p.Text? && |Trim(p.text)| >= MinInviteCode
    case Screenshot => (p.Photo? && |p.sizes| > 0) || (p.Document? && p.fileId != "")
    case _ => false
  }

  /** A message moves the questionnaire exactly when the step accepts it; every other message leaves the step where it is. */
  lemma AdvanceAccepts(step: Step, p: Payload)
    ensures Advance(step, p).Store? <==> Acceptable(step, p)
  {
    match step
    case FullName => TypedAnswerAccepts(p, MinFullName);
    case OperatorId => TypedAnswerAccepts(p, MinOperatorId);
    case InviteCode => TypedAnswerAccepts(p, MinInviteCode);
    case _ =>
  }

  /** An accepted answer moves the questionnaire to the step right after. */
  lemma AdvanceMovesOn(step: Step, p: Payload)
    requires Advance(step, p).Store?
    ensures Index(Advance(step, p).next) == Index(step) + 1
  {
    var r := Advance(step, p);
    match step
    case FullName => assert r.next == Operator;
    case OperatorId => assert r.next == InviteCode;
    case InviteCode => assert r.next == Screenshot;
    case Screenshot => assert r.next == Confirm;
  }

  /**
   * What is written: the typed answers trimmed and at least as long as the step demands, the
   * code upper-cased, and for a screenshot the largest photo size or the document's file id.
   */
  lemma {:induction false} StoredAnswers(step: Step, p: Payload)
    requires Advance(step, p).Store?
    ensures var patch := Advance(step, p).patch;
      && (patch.SetFullName? ==> |patch.fullName| >= MinFullName && Trim(patch.fullName) == patch.fullName)
      && (patch.SetOperatorUserId? ==>
            |patch.operatorUserId| >= MinOperatorId && Trim(patch.operatorUserId) == patch.operatorUserId)
      && (patch.SetInviteCode? ==>
            patch.code.Some? && |patch.code.value| >= MinInviteCode && ToUpper(patch.code.value) == patch.code.value)
      && (patch.SetScreenshot? && p.Photo? ==> patch.fileId == p.sizes[|p.sizes| - 1] && patch.mime == "image")
      && (patch.SetScreenshot? && p.Document? ==> patch.fileId == p.fileId && patch.mime == Or(p.mimeType, "document"))
  {
    var r := Advance(step, p);
    match step
    case FullName =>
      assert p.Text? && r.patch == SetFullName(Trim(p.text));
      TrimIdempotent(p.text);
    case OperatorId =>
      assert p.Text? && r.patch == SetOperatorUserId(Trim(p.text));
      TrimIdempotent(p.text);
    case InviteCode =>
      assert p.Text? && r.patch == SetInviteCode(Some(ToUpper(Trim(p.text))));
      ToUpperFacts(Trim(p.text));
    case Screenshot =>
  }
}
