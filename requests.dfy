/**
 * A submission (`cashback_requests` row): the fields the questionnaire collects, its status, the
 * admin note, and the patches `updateRequest`/`setStatus` apply to it.
 */
module Requests {
  import opened Wrappers
  import opened Ids

  /** The campaign tag of the VIP access flow. */
  const VipCampaign: string := "vip_access"

  datatype Status = Draft | Submitted | Approved | Rejected

  datatype Request = Request(
    userId: UserId,
    campaign: string,
    status: Status,
    fullName: Option<string>,
    operator: Option<string>,
    operatorUserId: Option<string>,
    inviteCode: Option<string>,
    screenshotFileId: Option<FileId>,
    screenshotMime: Option<string>,
    adminNote: Option<string>,
    submittedAt: Option<Time>)

  /** The row `createDraftRequest` inserts: owner, campaign and status DRAFT, every other column null. */
  function NewDraft(userId: UserId, campaign: string): Request {
    Request(userId, campaign, Draft, None, None, None, None, None, None, None, None)
  }

  /** The column updates the handlers send with `updateRequest`. */
  datatype Patch =
    | SetFullName(fullName: string)
    | SetOperator(operatorLabel: string)
    | SetOperatorUserId(operatorUserId: string)
    | SetInviteCode(code: Option<string>)
    | SetScreenshot(fileId: FileId, mime: string)
    | SetAdminNote(adminNote: string)
    | SetStatus(status: Status, note: Option<string>, submittedAt: Option<Time>)

  /** The row after a patch: the columns the patch names take its values, the others keep theirs. */
  function Apply(r: Request, p: Patch): Request {
    match p
    case SetFullName(n) => r.(fullName := Some(n))
    case SetOperator(l) => r.(operator := Some(l))
    case SetOperatorUserId(o) => r.(operatorUserId := Some(o))
    case SetInviteCode(c) => r.(inviteCode := c)
    case SetScreenshot(f, m) => r.(screenshotFileId := Some(f), screenshotMime := Some(m))
    case SetAdminNote(n) => r.(adminNote := Some(n))
    case SetStatus(s, n, at) =>
      r.(status := s,
         adminNote := if n.Some? then n else r.adminNote,
         submittedAt := if at.Some? then at else r.submittedAt)
  }

  /**
   * The patch `setStatus(id, status, note)` sends: always the status, the note only when one is
   * given, and the submission time only for SUBMITTED.
   */
  function StatusPatch(status: Status, note: Option<string>, now: Time): (p: Patch)
    ensures p.SetStatus? && p.status == status && p.note == note
    ensures p.submittedAt.Some? <==> status == Submitted
  {
    SetStatus(status, note, if status == Submitted then Some(now) else None)
  }

  /**
   * What `setStatus` does to a row, whatever its current status (the code checks no transition):
   * the new status is set, `submitted_at` is stamped exactly for SUBMITTED, `admin_note` changes
   * exactly when a note is given, and the collected fields stay as they were.
   */
  lemma SetStatusEffect(r: Request, status: Status, note: Option<string>, now: Time)
    ensures Apply(r, StatusPatch(status, note, now)).status == status
    ensures Apply(r, StatusPatch(status, note, now)).submittedAt ==
      if status == Submitted then Some(now) else r.submittedAt
    ensures Apply(r, StatusPatch(status, note, now)).adminNote == if note.Some? then note else r.adminNote
    ensures Apply(r, StatusPatch(status, note, now)).(status := r.status, adminNote := r.adminNote,
      submittedAt := r.submittedAt) == r
  {
  }
}
