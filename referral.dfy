/**
 * Referral crediting on submit (`applyInviteReferralIfAny`): the code typed in a request credits
 * its owner once, unless it is empty, unknown or the submitter's own; a marker appended to the
 * request's admin note makes the credit happen at most once per request.
 */
module Referral {
  import opened Wrappers
  import opened Ids
  import opened JsText
  import opened Requests

  /** The tag written into `admin_note` once a request's code has been counted. */
  const Marker: string := "[INVITE_COUNTED]"

  /** The code as it is looked up: a null code read as empty, NULs dropped, trimmed, upper-cased. */
  function LookupCode(req: Request): string {
    ToUpper(Trim(SafeText(Or(req.inviteCode, ""))))
  }

  /** The request's note as it is inspected: a null note read as empty, NULs dropped. */
  function NoteText(req: Request): string {
    SafeText(Or(req.adminNote, ""))
  }

  /** One referral to count: the inviter to credit and the code that named them. */
  datatype Credit = Credit(inviter: UserId, code: string)

  /**
   * The decision of `applyInviteReferralIfAny` for a request, given the owner of every code:
   * nothing for an empty code, an unknown code (or a falsy owner id), the submitter's own code,
   * or a note that already carries the marker; otherwise a credit to the code's owner.
   */
  function CreditFor(req: Request, codeOwner: map<string, UserId>): (c: Option<Credit>)
    ensures c.Some? ==>
      c.value.code == LookupCode(req) && c.value.code in codeOwner && codeOwner[c.value.code] == c.value.inviter
  {
    var raw := Trim(SafeText(Or(req.inviteCode, "")));
    if raw == "" then None
    else
      var code := ToUpper(raw);
      if code !in codeOwner || codeOwner[code] == 0 then None
      else if codeOwner[code] == req.userId then None
      else if Contains(NoteText(req), Marker) then None
      else Some(Credit(codeOwner[code], code))
  }

  /** A request is credited exactly when all four conditions of the source hold. */
  lemma CreditConditions(req: Request, codeOwner: map<string, UserId>)
    ensures CreditFor(req, codeOwner).Some? <==>
      && LookupCode(req) != ""
      && LookupCode(req) in codeOwner && codeOwner[LookupCode(req)] != 0
      && codeOwner[LookupCode(req)] != req.userId
      && !Contains(NoteText(req), Marker)
  {
  }

  /** Whatever surrounds it, a NUL-free tag survives `safeText`. */
  lemma {:induction false} TagSurvives(head: string, tag: string, tail: string)
    requires Nul !in tag
    ensures Contains(SafeText(head + (tag + tail)), tag)
  {
    SafeTextConcat(head, tag + tail);
    SafeTextConcat(tag, tail);
    SafeTextKeeps(tag);
    ContainsMiddle(SafeText(head), tag, SafeText(tail));
    assert SafeText(head + (tag + tail)) == SafeText(head) + tag + SafeText(tail);
  }

  /** The note written after a credit: the old note (if any) on its own line, then the marker and the code. */
  function CreditedNote(note: Option<string>, code: string): string {
    var prev := SafeText(Or(note, ""));
    (if prev != "" then prev + "\n" else "") + (Marker + (" code=" + code))
  }

  /** The credited note keeps the old note at its head and carries the marker, even after `safeText`. */
  lemma CreditedNoteFacts(note: Option<string>, code: string)
    ensures Contains(SafeText(CreditedNote(note, code)), Marker)
    ensures StartsWith(CreditedNote(note, code), SafeText(Or(note, "")))
  {
    var prev := SafeText(Or(note, ""));
    var head := if prev != "" then prev + "\n" else "";
    assert Nul !in Marker;
    TagSurvives(head, Marker, " code=" + code);
    assert (head + (Marker + (" code=" + code)))[..|prev|] == prev;
  }

  /** The request as `applyInviteReferralIfAny` leaves it after crediting. */
  function Credited(req: Request, c: Credit): Request {
    Apply(req, SetAdminNote(CreditedNote(req.adminNote, c.code)))
  }

  /** A note that already carries the marker stops the credit. */
  lemma MarkedNotCredited(req: Request, owners: map<string, UserId>)
    requires Contains(NoteText(req), Marker)
    ensures CreditFor(req, owners) == None
  {
  }

  /**
   * Crediting is once per request: on the request with its updated note the decision is
   * "nothing to do", whatever the table of codes says.
   */
  lemma CreditIdempotent(req: Request, c: Credit, owners: map<string, UserId>)
    ensures CreditFor(Credited(req, c), owners) == None
  {
    var n := CreditedNote(req.adminNote, c.code);
    CreditedNoteFacts(req.adminNote, c.code);
    var r := Credited(req, c);
    assert r.adminNote == Some(n);
    assert n != "";
    assert NoteText(r) == SafeText(n);
    MarkedNotCredited(r, owners);
  }

  /** A user never earns a referral from their own code. */
  lemma NoSelfReferral(req: Request, codeOwner: map<string, UserId>)
    requires LookupCode(req) in codeOwner && codeOwner[LookupCode(req)] == req.userId
    ensures CreditFor(req, codeOwner) == None
  {
  }
}
