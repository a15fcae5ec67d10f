/**
 * The bot: the in-memory session maps, the store, and the handlers of the button presses and
 * of the message router. Every message the bot sends is appended to `outbox`.
 */
module AccessBot {
  import opened Wrappers
  import opened Ids
  import opened JsText
  import opened AdminConfig
  import opened InviteCodes
  import opened Requests
  import opened Store
  import opened Referral
  import opened Ledger
  import opened Inbound
  import opened Questionnaire
  import opened Sessions
  import opened Outbound

  /** The note `ADMIN_REJECT_` writes. */
  const RejectNote: string := "Rifiutata da admin"
  /** The prefix of the note an admin question writes. */
  const AskedInfo: string := "Admin asked info: "

  /**
   * The writes of a credit decision: nothing without a credit or without the inviter's row,
   * otherwise the inviter's counter one higher, then the marker appended to the request's note.
   */
  function WithCredit(d: Db, id: RequestId, req: Request, credit: Option<Credit>): Db {
    match credit
    case None => d
    case Some(c) =>
      match d.InviteOf(c.inviter)
      case Err(_) => d
      case Ok(row) =>
        d.SetReferrals(c.inviter, row.referrals + 1).UpdateRequest(id, SetAdminNote(CreditedNote(req.adminNote, c.code)))
  }

  /** The store after `applyInviteReferralIfAny(req)` for request `id`: the decision, then its writes. */
  function AfterCredit(d: Db, id: RequestId, req: Request): Db {
    WithCredit(d, id, req, CreditFor(req, d.invites.byCode))
  }

  /** Every code in `user_invites` belongs to a user with a row, so a credit always finds its inviter's counter. */
  lemma CreditFindsRow(d: Db, req: Request)
    requires d.Valid()
    ensures CreditFor(req, d.invites.byCode).Some? ==> CreditFor(req, d.invites.byCode).value.inviter in d.invites.rows
  {
  }

  /**
   * A credit adds exactly one referral to the inviter and touches no other counter, no code,
   * no user and no redemption; the store stays consistent.
   */
  lemma CreditAddsOne(d: Db, id: RequestId, req: Request, c: Credit)
    requires d.Valid() && c.inviter in d.invites.rows
    ensures var after := WithCredit(d, id, req, Some(c));
      && after.Valid()
      && after.invites.rows.Keys == d.invites.rows.Keys
      && after.invites.rows[c.inviter] == Invite(d.invites.rows[c.inviter].code, d.invites.rows[c.inviter].referrals + 1)
      && (forall u :: u in d.invites.rows && u != c.inviter ==> after.invites.rows[u] == d.invites.rows[u])
      && after.invites.byCode == d.invites.byCode && after.users == d.users && after.redemptions == d.redemptions
  {
    var d1 := d.SetReferrals(c.inviter, d.invites.rows[c.inviter].referrals + 1);
    var d2 := d1.UpdateRequest(id, SetAdminNote(CreditedNote(req.adminNote, c.code)));
    assert d2.invites == d1.invites;
  }

  /** Without a credit `applyInviteReferralIfAny` writes nothing; either way the store stays consistent. */
  lemma CreditOrNothing(d: Db, id: RequestId, req: Request)
    requires d.Valid()
    ensures AfterCredit(d, id, req).Valid()
    ensures CreditFor(req, d.invites.byCode).None? ==> AfterCredit(d, id, req) == d
  {
    var credit := CreditFor(req, d.invites.byCode);
    if credit.Some? {
      CreditFindsRow(d, req);
      CreditAddsOne(d, id, req, credit.value);
    }
  }

  /**
   * Submitting the same request again credits nothing more: applied to the request as it is
   * stored after a first credit, `applyInviteReferralIfAny` leaves the store unchanged.
   */
  lemma CreditCountsOnce(d: Db, id: RequestId)
    requires d.Valid() && id in d.requests.rows
    ensures var d' := AfterCredit(d, id, d.requests.rows[id]);
      id in d'.requests.rows && AfterCredit(d', id, d'.requests.rows[id]) == d'
  {
    var req := d.requests.rows[id];
    var d' := AfterCredit(d, id, req);
    match CreditFor(req, d.invites.byCode)
    case None =>
    case Some(c) =>
      assert d'.requests.rows[id] == Credited(req, c);
      CreditIdempotent(req, c, d'.invites.byCode);
  }

  class Bot {
    const adminIds: seq<TgId>
    const publicChannelUrl: string
    const vipChannelId: Option<int>

    var db: Db
    var stateUser: map<TgId, UserState>
    var stateAdmin: map<TgId, AdminState>
    var pendingReplies: map<TgId, PendingReply>
    var pendingSupport: set<TgId>
    var outbox: seq<Outgoing>

    /** The store is consistent, and every stored code has the `VIP-` shape. */
    ghost predicate Valid()
      reads this
    {
      db.Valid() && db.invites.CodesWellFormed()
    }

    /** The bot as it starts: configuration parsed, empty tables, no sessions, nothing sent. */
    constructor (adminIdsRaw: string, publicChannelUrl: string, vipChannelRaw: string)
      ensures Valid()
      ensures adminIds == ParseAdminIds(adminIdsRaw) && vipChannelId == VipChannelId(vipChannelRaw)
      ensures this.publicChannelUrl == publicChannelUrl
      ensures db == Empty && stateUser == map[] && stateAdmin == map[] && pendingReplies == map[]
      ensures pendingSupport == {} && outbox == []
    {
      adminIds := ParseAdminIds(adminIdsRaw);
      this.publicChannelUrl := publicChannelUrl;
      vipChannelId := VipChannelId(vipChannelRaw);
      db := Empty;
      stateUser := map[];
      stateAdmin := map[];
      pendingReplies := map[];
      pendingSupport := {};
      outbox := [];
      EmptyValid();
    }

    /** `getUserState(tid)`. */
    function UserStateOf(tid: TgId): UserState
      reads this
    {
      if tid in stateUser then stateUser[tid] else NoSession
    }

    /** `getAdminState(aid)`. */
    function AdminStateOf(aid: TgId): AdminState
      reads this
    {
      if aid in stateAdmin then stateAdmin[aid] else NoAdminSession
    }

    /** `pendingReplies.get(tid)`. */
    function ReplyFor(tid: TgId): Option<PendingReply>
      reads this
    {
      if tid in pendingReplies then Some(pendingReplies[tid]) else None
    }

    /** The channel link an approval sends: a freshly minted one when a VIP channel is set, else the public URL. */
    function ApprovalLink(minted: Option<string>): Option<string> {
      if Truthy(vipChannelId) then minted else Some(publicChannelUrl)
    }

    // -------------------------------------------------------------------------------------------
    // DB helpers

    /**
     * `ensureInviteCode(userId)`: returns the user's code, inserting one when there is none;
     * up to `MaxAttempts` random codes are tried, retrying only on unique-constraint errors.
     */
    method EnsureInviteCode(uid: UserId, attempts: seq<Attempt>) returns (r: Result<string, Failure>)
      requires Valid() && WellFormed(attempts)
      modifies this`db
      ensures Valid()
      ensures (db, r) == old(db).EnsuredInvite(uid, attempts)
    {
      if uid in db.invites.rows {
        return Ok(db.invites.rows[uid].code);
      }
      ghost var d0 := db;
      EnsuredInviteFacts(d0, uid, attempts);
      for i := 0 to MaxAttempts
        invariant db == d0
        invariant d0.IssueFrom(uid, attempts, 0) == d0.IssueFrom(uid, attempts, i)
      {
        var suffix := MakeRandomCode(CodeLength, attempts[i].draws);
        assert attempts[i].draws[..CodeLength] == attempts[i].draws;
        var code := Prefix + suffix;
        var e := db.InsertInviteError(uid, code, attempts[i].fault);
        if e.None? {
          db := db.WithInvite(uid, code);
          return Ok(code);
        }
        if !IsCollision(e.value) {
          return Err(StoreError(e.value));
        }
      }
      return Err(NoUniqueCode);
    }

    /** `upsertUser(ctx)`: writes the sender's row, then makes sure they have an invite code. */
    method UpsertUser(from: Sender, now: Time, attempts: seq<Attempt>) returns (r: Result<UserId, Failure>)
      requires Valid() && WellFormed(attempts)
      modifies this`db
      ensures Valid()
      ensures (db, r) == old(db).Upserted(from, now, attempts)
    {
      var saved := db.SaveUser(Profile(from, now));
      SaveUserFacts(db, Profile(from, now));
      db := saved.0;
      var code := EnsureInviteCode(saved.1, attempts);
      r := if code.Ok? then Ok(saved.1) else Err(code.error);
    }

    /** `incrementReferrals(inviterUserId, amount)`: reads the counter, writes it back `amount` higher. */
    method IncrementReferrals(uid: UserId, amount: nat) returns (r: Result<nat, Failure>)
      requires Valid()
      modifies this`db
      ensures Valid()
      ensures uid !in old(db.invites.rows) ==> r == Err(NoRow) && db == old(db)
      ensures uid in old(db.invites.rows) ==>
        r == Ok(old(db.invites.rows[uid].referrals) + amount) && db == old(db).SetReferrals(uid, r.value)
    {
      var row := db.InviteOf(uid);
      if row.Err? {
        return Err(row.error);
      }
      var next := row.value.referrals + amount;
      db := db.SetReferrals(uid, next);
      return Ok(next);
    }

    /** `decrementReferralsBy4(userId)`: refuses below 4 without writing, otherwise writes the counter 4 lower. */
    method DecrementReferralsBy4(uid: UserId) returns (r: Result<Decrement, Failure>)
      requires Valid()
      modifies this`db
      ensures Valid()
      ensures uid !in old(db.invites.rows) ==> r == Err(NoRow) && db == old(db)
      ensures uid in old(db.invites.rows) ==> r == Ok(TakeFour(old(db.invites.rows[uid].referrals)))
      ensures r.Ok? && r.value.ok ==> db == old(db).SetReferrals(uid, r.value.count)
      ensures r.Ok? && !r.value.ok ==> db == old(db)
    {
      var row := db.InviteOf(uid);
      if row.Err? {
        return Err(row.error);
      }
      var count := row.value.referrals;
      if count < PerPrize {
        return Ok(Decrement(false, count));
      }
      var next := count - PerPrize;
      db := db.SetReferrals(uid, next);
      return Ok(Decrement(true, next));
    }

    /** `applyInviteReferralIfAny(req)` for request `id`. */
    method ApplyInviteReferral(id: RequestId, req: Request)
      requires Valid()
      modifies this`db
      ensures Valid()
      ensures db == AfterCredit(old(db), id, req)
    {
      var credit := CreditFor(req, db.invites.byCode);
      if credit.None? {
        return;
      }
      GiveCredit(id, req, credit.value);
    }

    /** The writes of a credit, in order: `incrementReferrals(inviter, 1)`, then the request's note. */
    method GiveCredit(id: RequestId, req: Request, c: Credit)
      requires Valid() && c.inviter in db.invites.rows
      modifies this`db
      ensures Valid()
      ensures db == WithCredit(old(db), id, req, Some(c))
    {
      var counted := IncrementReferrals(c.inviter, 1);
      db := db.UpdateRequest(id, SetAdminNote(CreditedNote(req.adminNote, c.code)));
    }

    // -------------------------------------------------------------------------------------------
    // user buttons

    /** `/start`: registers the user and shows the welcome, or a temporary error. */
    method Start(from: Sender, now: Time, attempts: seq<Attempt>)
      requires Valid() && WellFormed(attempts)
      modifies this`db, this`outbox
      ensures Valid()
      ensures var (d, r) := old(db).Upserted(from, now, attempts);
        db == d && outbox == old(outbox) + [Outgoing(from.id, if r.Ok? then Intro else TemporaryError)]
    {
      var r := UpsertUser(from, now, attempts);
      outbox := outbox + [Outgoing(from.id, if r.Ok? then Intro else TemporaryError)];
    }

    /**
     * START_FLOW: registers the user, opens a DRAFT `vip_access` request and starts the
     * questionnaire at FULL_NAME on it.
     */
    method StartFlow(from: Sender, now: Time, attempts: seq<Attempt>)
      requires Valid() && WellFormed(attempts)
      modifies this`db, this`stateUser, this`outbox
      ensures Valid()
      ensures var (d, r) := old(db).Upserted(from, now, attempts);
        if r.Err? then
          db == d && stateUser == old(stateUser) && outbox == old(outbox) + [Outgoing(from.id, FlowError)]
        else
          var (d', id) := d.InsertRequest(r.value, VipCampaign);
          && db == d' && id !in d.requests.rows
          && stateUser == old(stateUser)[from.id := UserState(Some(FullName), Some(id), Some(r.value))]
          && outbox == old(outbox) + [Outgoing(from.id, StepPrompt(FullName))]
    {
      var r := UpsertUser(from, now, attempts);
      if r.Err? {
        outbox := outbox + [Outgoing(from.id, FlowError)];
        return;
      }
      var created := db.InsertRequest(r.value, VipCampaign);
      db := created.0;
      stateUser := stateUser[from.id := Merge(UserStateOf(from.id), UserState(Some(FullName), Some(created.1), Some(r.value)))];
      outbox := outbox + [Outgoing(from.id, StepPrompt(FullName))];
    }

    /** SUPPORT: the user's next message becomes a support ticket. */
    method Support(tid: TgId)
      modifies this`pendingSupport, this`outbox
      ensures pendingSupport == old(pendingSupport) + {tid}
      ensures outbox == old(outbox) + [Outgoing(tid, SupportPrompt)]
    {
      pendingSupport := pendingSupport + {tid};
      outbox := outbox + [Outgoing(tid, SupportPrompt)];
    }

    /** REF_STATUS: an approved user sees their code, their counter and the prizes it pays for. */
    method RefStatus(from: Sender, now: Time, attempts: seq<Attempt>)
      requires Valid() && WellFormed(attempts)
      modifies this`db, this`outbox
      ensures Valid()
      ensures var (d, r) := old(db).Upserted(from, now, attempts);
        && db == d
        && (r.Err? ==> outbox == old(outbox) + [Outgoing(from.id, ActionError)])
        && (r.Ok? && !d.IsVipApproved(r.value) ==> outbox == old(outbox) + [Outgoing(from.id, VipOnly)])
        && (r.Ok? && d.IsVipApproved(r.value) ==>
              r.value in d.invites.rows
              && var row := d.invites.rows[r.value];
                 outbox == old(outbox) + [Outgoing(from.id, ReferralStatus(row.code, row.referrals, Available(row.referrals)))])
    {
      UpsertedFacts(db, from, now, attempts);
      var r := UpsertUser(from, now, attempts);
      if r.Err? {
        outbox := outbox + [Outgoing(from.id, ActionError)];
        return;
      }
      if !db.IsVipApproved(r.value) {
        outbox := outbox + [Outgoing(from.id, VipOnly)];
        return;
      }
      var row := db.InviteOf(r.value);
      assert row.Ok?;
      var count := row.value.referrals;
      outbox := outbox + [Outgoing(from.id, ReferralStatus(row.value.code, count, Available(count)))];
    }

    /** CLAIM_REWARD: an approved user with at least one prize available gets the prize menu. */
    method ClaimReward(from: Sender, now: Time, attempts: seq<Attempt>)
      requires Valid() && WellFormed(attempts)
      modifies this`db, this`outbox
      ensures Valid()
      ensures var (d, r) := old(db).Upserted(from, now, attempts);
        && db == d
        && (r.Err? ==> outbox == old(outbox) + [Outgoing(from.id, ActionError)])
        && (r.Ok? && !d.IsVipApproved(r.value) ==> outbox == old(outbox) + [Outgoing(from.id, VipOnly)])
        && (r.Ok? && d.IsVipApproved(r.value) ==>
              r.value in d.invites.rows
              && var n := Available(d.invites.rows[r.value].referrals);
                 outbox == old(outbox) + [Outgoing(from.id, if n > 0 then PrizeMenu(n) else NoPrizeYet)])
    {
      UpsertedFacts(db, from, now, attempts);
      var r := UpsertUser(from, now, attempts);
      if r.Err? {
        outbox := outbox + [Outgoing(from.id, ActionError)];
        return;
      }
      if !db.IsVipApproved(r.value) {
        outbox := outbox + [Outgoing(from.id, VipOnly)];
        return;
      }
      var row := db.InviteOf(r.value);
      assert row.Ok?;
      var available := Available(row.value.referrals);
      if available <= 0 {
        outbox := outbox + [Outgoing(from.id, NoPrizeYet)];
        return;
      }
      outbox := outbox + [Outgoing(from.id, PrizeMenu(available))];
    }

    /**
     * What PRIZE_ does for a known prize, from the store `d0` and the messages `out0` before it:
     * the user is registered first, and a failure there is reported; then `Claimed` says the rest.
     */
    ghost predicate PrizeHandled(from: Sender, prize: string, now: Time, attempts: seq<Attempt>, d0: Db,
                                 out0: seq<Outgoing>)
      requires WellFormed(attempts)
      reads this
    {
      var (d, r) := d0.Upserted(from, now, attempts);
      && (r.Err? ==> db == d && outbox == out0 + [Outgoing(from.id, ActionError)])
      && (r.Ok? ==> r.value in d.invites.rows && Claimed(from, r.value, prize, d, out0))
    }

    /**
     * A registered user's claim, from the store `d` and the messages `out0` before it: an
     * approved user whose counter is at least 4 pays exactly 4 referrals for one PENDING claim
     * and the admins are told; otherwise no claim is recorded and no counter changes.
     */
    ghost predicate Claimed(from: Sender, uid: UserId, prize: string, d: Db, out0: seq<Outgoing>)
      requires uid in d.invites.rows
      reads this
    {
      var row := d.invites.rows[uid];
      && (!d.IsVipApproved(uid) ==> db == d && outbox == out0 + [Outgoing(from.id, VipOnly)])
      && (d.IsVipApproved(uid) && row.referrals < PerPrize ==>
            db == d && outbox == out0 + [Outgoing(from.id, NotEnoughReferrals)])
      && (d.IsVipApproved(uid) && row.referrals >= PerPrize ==>
            var left := row.referrals - PerPrize;
            && db == d.SetReferrals(uid, left).AddRedemption(Redemption(uid, prize, RedemptionNote, PendingStatus))
            && outbox == out0 + Fanout(adminIds, PrizeClaim(prize, from, row.code, left))
                         + [Outgoing(from.id, PrizeGranted(prize, left, Available(left)))])
    }

    /** PRIZE_<name>: the name is trimmed; an unknown prize is refused before anything is read. */
    method Prize(from: Sender, name: string, now: Time, attempts: seq<Attempt>)
      requires Valid() && WellFormed(attempts)
      modifies this`db, this`outbox
      ensures Valid()
      ensures !IsPrize(Trim(name)) ==> db == old(db) && outbox == old(outbox) + [Outgoing(from.id, InvalidPrize)]
      ensures IsPrize(Trim(name)) ==> PrizeHandled(from, Trim(name), now, attempts, old(db), old(outbox))
    {
      var prize := Trim(name);
      if !IsPrize(prize) {
        outbox := outbox + [Outgoing(from.id, InvalidPrize)];
        return;
      }
      ClaimPrize(from, prize, now, attempts);
    }

    /** PRIZE_ past the catalogue check: registration, then the claim. */
    method ClaimPrize(from: Sender, prize: string, now: Time, attempts: seq<Attempt>)
      requires Valid() && WellFormed(attempts)
      modifies this`db, this`outbox
      ensures Valid()
      ensures PrizeHandled(from, prize, now, attempts, old(db), old(outbox))
    {
      UpsertedFacts(db, from, now, attempts);
      var r := UpsertUser(from, now, attempts);
      if r.Err? {
        outbox := outbox + [Outgoing(from.id, ActionError)];
        return;
      }
      Claim(from, r.value, prize);
    }

    /** The claim of a registered user: approval, then the counter, then the grant. */
    method Claim(from: Sender, uid: UserId, prize: string)
      requires Valid() && uid in db.invites.rows
      modifies this`db, this`outbox
      ensures Valid()
      ensures Claimed(from, uid, prize, old(db), old(outbox))
    {
      if !db.IsVipApproved(uid) {
        outbox := outbox + [Outgoing(from.id, VipOnly)];
        return;
      }
      var row := db.InviteOf(uid);
      if row.value.referrals < PerPrize {
        outbox := outbox + [Outgoing(from.id, NotEnoughReferrals)];
        return;
      }
      GrantPrize(from, uid, prize);
    }

    /**
     * The granting half of PRIZE_: four referrals taken, the PENDING claim recorded, the admins
     * told, then the user. The counter read before it is the one the decrement sees, since
     * events are handled one at a time here.
     */
    method GrantPrize(from: Sender, uid: UserId, prize: string)
      requires Valid() && uid in db.invites.rows && db.invites.rows[uid].referrals >= PerPrize
      modifies this`db, this`outbox
      ensures Valid()
      ensures var row := old(db.invites.rows[uid]);
        var left := row.referrals - PerPrize;
        && db == old(db).SetReferrals(uid, left).AddRedemption(Redemption(uid, prize, RedemptionNote, PendingStatus))
        && outbox == old(outbox) + Fanout(adminIds, PrizeClaim(prize, from, row.code, left))
                     + [Outgoing(from.id, PrizeGranted(prize, left, Available(left)))]
    {
      var code := db.invites.rows[uid].code;
      var dec := DecrementReferralsBy4(uid);
      assert dec.Ok? && dec.value.ok;
      db := db.AddRedemption(Redemption(uid, prize, RedemptionNote, PendingStatus));
      outbox := outbox + Fanout(adminIds, PrizeClaim(prize, from, code, dec.value.count));
      outbox := outbox + [Outgoing(from.id, PrizeGranted(prize, dec.value.count, Available(dec.value.count)))];
    }

    /** CANCEL_FLOW: forgets the user's questionnaire session, whatever it was. */
    method CancelFlow(tid: TgId)
      modifies this`stateUser, this`outbox
      ensures stateUser == old(stateUser) - {tid}
      ensures outbox == old(outbox) + [Outgoing(tid, Cancelled)]
    {
      stateUser := stateUser - {tid};
      outbox := outbox + [Outgoing(tid, Cancelled)];
    }

    /** EDIT: back to FULL_NAME on the same request; without a request nothing changes. */
    method Edit(tid: TgId)
      modifies this`stateUser, this`outbox
      ensures var st := old(UserStateOf(tid));
        if st.requestId.None? then
          stateUser == old(stateUser) && outbox == old(outbox) + [Outgoing(tid, SessionExpired)]
        else
          && stateUser == old(stateUser)[tid := st.(step := Some(FullName))]
          && stateUser[tid].requestId == st.requestId
          && outbox == old(outbox) + [Outgoing(tid, StepPrompt(FullName))]
    {
      var st := UserStateOf(tid);
      if st.requestId.None? {
        outbox := outbox + [Outgoing(tid, SessionExpired)];
        return;
      }
      MergeStep(st, FullName);
      stateUser := stateUser[tid := Merge(st, AtStep(FullName))];
      outbox := outbox + [Outgoing(tid, StepPrompt(FullName))];
    }

    /** SKIP_INVITE: clears the request's code and moves to SCREENSHOT, whatever the current step. */
    method SkipInvite(tid: TgId)
      requires Valid()
      modifies this`db, this`stateUser, this`outbox
      ensures Valid()
      ensures var st := old(UserStateOf(tid));
        if st.requestId.None? then
          db == old(db) && stateUser == old(stateUser) && outbox == old(outbox) + [Outgoing(tid, SessionExpired)]
        else
          && db == old(db).UpdateRequest(st.requestId.value, SetInviteCode(None))
          && stateUser == old(stateUser)[tid := st.(step := Some(Screenshot))]
          && outbox == old(outbox) + [Outgoing(tid, StepPrompt(Screenshot))]
    {
      var st := UserStateOf(tid);
      if st.requestId.None? {
        outbox := outbox + [Outgoing(tid, SessionExpired)];
        return;
      }
      db := db.UpdateRequest(st.requestId.value, SetInviteCode(None));
      MergeStep(st, Screenshot);
      stateUser := stateUser[tid := Merge(st, AtStep(Screenshot))];
      outbox := outbox + [Outgoing(tid, StepPrompt(Screenshot))];
    }

    /** OP_<key>: stores the operator's label and moves to OPERATOR_ID, whatever the current step. */
    method ChooseOperator(tid: TgId, key: string)
      requires Valid()
      modifies this`db, this`stateUser, this`outbox
      ensures Valid()
      ensures var st := old(UserStateOf(tid));
        if st.requestId.None? then
          db == old(db) && stateUser == old(stateUser) && outbox == old(outbox) + [Outgoing(tid, SessionExpired)]
        else
          && db == old(db).UpdateRequest(st.requestId.value, SetOperator(OperatorLabel(Trim(key))))
          && stateUser == old(stateUser)[tid := st.(step := Some(OperatorId))]
          && outbox == old(outbox) + [Outgoing(tid, OperatorChosen(OperatorLabel(Trim(key))))]
    {
      var st := UserStateOf(tid);
      if st.requestId.None? {
        outbox := outbox + [Outgoing(tid, SessionExpired)];
        return;
      }
      var name := OperatorLabel(Trim(key));
      db := db.UpdateRequest(st.requestId.value, SetOperator(name));
      MergeStep(st, OperatorId);
      stateUser := stateUser[tid := Merge(st, AtStep(OperatorId))];
      outbox := outbox + [Outgoing(tid, OperatorChosen(name))];
    }

    /**
     * SUBMIT: marks the request SUBMITTED (stamping the time), credits its invite code, notifies
     * the admins and ends the session. A request that cannot be read back leaves the session.
     */
    method Submit(from: Sender, now: Time)
      requires Valid()
      modifies this`db, this`stateUser, this`outbox
      ensures Valid()
      ensures var st := old(UserStateOf(from.id));
        st.requestId.None? ==>
          db == old(db) && stateUser == old(stateUser) && outbox == old(outbox) + [Outgoing(from.id, SessionExpired)]
      ensures var st := old(UserStateOf(from.id));
        st.requestId.Some? && st.requestId.value !in old(db.requests.rows) ==>
          db == old(db) && stateUser == old(stateUser) && outbox == old(outbox) + [Outgoing(from.id, SubmitError)]
      ensures var st := old(UserStateOf(from.id));
        st.requestId.Some? && st.requestId.value in old(db.requests.rows) ==>
          var id := st.requestId.value;
          var d := old(db).SetStatus(id, Submitted, None, now);
          var req := d.requests.rows[id];
          && req.status == Submitted && req.submittedAt == Some(now)
          && db == AfterCredit(d, id, req)
          && stateUser == old(stateUser) - {from.id}
          && outbox == old(outbox) + NewRequestNotices(adminIds, id, from, req) + [Outgoing(from.id, SubmittedDone)]
    {
      var st := UserStateOf(from.id);
      if st.requestId.None? {
        outbox := outbox + [Outgoing(from.id, SessionExpired)];
        return;
      }
      var id := st.requestId.value;
      db := db.SetStatus(id, Submitted, None, now);
      var read := db.GetRequest(id);
      if read.Err? {
        outbox := outbox + [Outgoing(from.id, SubmitError)];
        return;
      }
      var req := read.value;
      ApplyInviteReferral(id, req);
      outbox := outbox + NewRequestNotices(adminIds, id, from, req);
      stateUser := stateUser - {from.id};
      outbox := outbox + [Outgoing(from.id, SubmittedDone)];
    }

    // -------------------------------------------------------------------------------------------
    // admin buttons

    /**
     * ADMIN_APPROVE_<id>: marks the request APPROVED, then sends the user the channel link and
     * their invite code. The status stays APPROVED even when no link can be sent. `sent` says
     * whether the message to the user was delivered; when it was not, the admin gets the
     * approval error instead of the confirmation, and the store keeps what was written.
     */
    method AdminApprove(actor: TgId, requestId: RequestId, minted: Option<string>, now: Time, attempts: seq<Attempt>,
                        sent: bool)
      requires Valid() && WellFormed(attempts)
      modifies this`db, this`outbox
      ensures Valid()
      ensures !IsAdmin(adminIds, actor) ==> db == old(db) && outbox == old(outbox) + [Outgoing(actor, NotAuthorized)]
      ensures IsAdmin(adminIds, actor) && requestId !in old(db.requests.rows) ==>
        db == old(db) && outbox == old(outbox) + [Outgoing(actor, ApproveError(requestId))]
      ensures IsAdmin(adminIds, actor) && requestId in old(db.requests.rows) ==>
        var uid := old(db.requests.rows[requestId]).userId;
        var d := old(db).SetStatus(requestId, Approved, None, now);
        && d.requests.rows[requestId].status == Approved
        && (uid !in d.users.rows || ApprovalLink(minted).None? ==>
              db == d && outbox == old(outbox) + [Outgoing(actor, ApproveError(requestId))])
        && (uid in d.users.rows && ApprovalLink(minted) == Some("") ==>
              db == d && outbox == old(outbox) + [Outgoing(actor, MissingChannelConfig)])
        && (uid in d.users.rows && ApprovalLink(minted).Some? && ApprovalLink(minted).value != "" ==>
              var (d', code) := d.EnsuredInvite(uid, attempts);
              && db == d'
              && outbox == old(outbox) + (
                   if code.Err? || !sent then [Outgoing(actor, ApproveError(requestId))]
                   else [Outgoing(d.users.rows[uid].telegramId,
                                  AccessGranted(ApprovalLink(minted).value, Truthy(vipChannelId), code.value)),
                         Outgoing(actor, ApprovedDone(requestId))]))
    {
      if !IsAdmin(adminIds, actor) {
        outbox := outbox + [Outgoing(actor, NotAuthorized)];
        return;
      }
      var read := db.GetRequest(requestId);
      if read.Err? {
        outbox := outbox + [Outgoing(actor, ApproveError(requestId))];
        return;
      }
      var req := read.value;
      db := db.SetStatus(requestId, Approved, None, now);
      var user := db.TelegramIdOf(req.userId);
      if user.Err? {
        outbox := outbox + [Outgoing(actor, ApproveError(requestId))];
        return;
      }
      var link := publicChannelUrl;
      if Truthy(vipChannelId) {
        if minted.None? {
          outbox := outbox + [Outgoing(actor, ApproveError(requestId))];
          return;
        }
        link := minted.value;
      }
      if link == "" {
        outbox := outbox + [Outgoing(actor, MissingChannelConfig)];
        return;
      }
      var code := EnsureInviteCode(req.userId, attempts);
      if code.Err? || !sent {
        outbox := outbox + [Outgoing(actor, ApproveError(requestId))];
        return;
      }
      outbox := outbox + [Outgoing(user.value, AccessGranted(link, Truthy(vipChannelId), code.value))];
      outbox := outbox + [Outgoing(actor, ApprovedDone(requestId))];
    }

    /**
     * ADMIN_REJECT_<id>: marks the request REJECTED with the rejection note and tells the user.
     * When the message to the user is not delivered (`sent` false), the row stays REJECTED and
     * the admin gets the rejection error instead of the confirmation.
     */
    method AdminReject(actor: TgId, requestId: RequestId, now: Time, sent: bool)
      requires Valid()
      modifies this`db, this`outbox
      ensures Valid()
      ensures !IsAdmin(adminIds, actor) ==> db == old(db) && outbox == old(outbox) + [Outgoing(actor, NotAuthorized)]
      ensures IsAdmin(adminIds, actor) && requestId !in old(db.requests.rows) ==>
        db == old(db) && outbox == old(outbox) + [Outgoing(actor, RejectError(requestId))]
      ensures IsAdmin(adminIds, actor) && requestId in old(db.requests.rows) ==>
        var uid := old(db.requests.rows[requestId]).userId;
        var d := old(db).SetStatus(requestId, Rejected, Some(RejectNote), now);
        && db == d
        && db.requests.rows[requestId].status == Rejected && db.requests.rows[requestId].adminNote == Some(RejectNote)
        && outbox == old(outbox) + (
             if uid in d.users.rows && sent
             then [Outgoing(d.users.rows[uid].telegramId, AccessRejected), Outgoing(actor, RejectedDone(requestId))]
             else [Outgoing(actor, RejectError(requestId))])
    {
      if !IsAdmin(adminIds, actor) {
        outbox := outbox + [Outgoing(actor, NotAuthorized)];
        return;
      }
      var read := db.GetRequest(requestId);
      if read.Err? {
        outbox := outbox + [Outgoing(actor, RejectError(requestId))];
        return;
      }
      db := db.SetStatus(requestId, Rejected, Some(RejectNote), now);
      var user := db.TelegramIdOf(read.value.userId);
      if user.Err? || !sent {
        outbox := outbox + [Outgoing(actor, RejectError(requestId))];
        return;
      }
      outbox := outbox + [Outgoing(user.value, AccessRejected), Outgoing(actor, RejectedDone(requestId))];
    }

    /** ADMIN_ASK_<id>: the admin's next message becomes a question to the request's owner. */
    method AdminAsk(actor: TgId, requestId: RequestId)
      modifies this`stateAdmin, this`outbox
      ensures !IsAdmin(adminIds, actor) ==>
        stateAdmin == old(stateAdmin) && outbox == old(outbox) + [Outgoing(actor, NotAuthorized)]
      ensures IsAdmin(adminIds, actor) ==>
        match db.GetRequest(requestId)
        case Err(_) => stateAdmin == old(stateAdmin) && outbox == old(outbox) + [Outgoing(actor, AskError)]
        case Ok(req) =>
          match db.TelegramIdOf(req.userId)
          case Err(_) => stateAdmin == old(stateAdmin) && outbox == old(outbox) + [Outgoing(actor, AskError)]
          case Ok(user) =>
            && stateAdmin == old(stateAdmin)[actor := old(AdminStateOf(actor)).(
                 mode := Some(AskInfo), requestId := Some(requestId), userTelegramId := Some(user))]
            && outbox == old(outbox) + [Outgoing(actor, QuestionPrompt(requestId))]
    {
      if !IsAdmin(adminIds, actor) {
        outbox := outbox + [Outgoing(actor, NotAuthorized)];
        return;
      }
      var read := db.GetRequest(requestId);
      if read.Err? {
        outbox := outbox + [Outgoing(actor, AskError)];
        return;
      }
      var user := db.TelegramIdOf(read.value.userId);
      if user.Err? {
        outbox := outbox + [Outgoing(actor, AskError)];
        return;
      }
      stateAdmin := stateAdmin[actor := MergeAdmin(AdminStateOf(actor),
        AdminState(Some(AskInfo), Some(requestId), Some(user.value), None))];
      outbox := outbox + [Outgoing(actor, QuestionPrompt(requestId))];
    }

    /** ADMIN_SUPPORT_REPLY_<tid>: the admin's next message becomes the answer to that user's ticket. */
    method AdminSupportReply(actor: TgId, userTid: nat)
      modifies this`stateAdmin, this`outbox
      ensures !IsAdmin(adminIds, actor) ==>
        stateAdmin == old(stateAdmin) && outbox == old(outbox) + [Outgoing(actor, NotAuthorized)]
      ensures IsAdmin(adminIds, actor) ==>
        && stateAdmin == old(stateAdmin)[actor := old(AdminStateOf(actor)).(
             mode := Some(SupportReply), supportUserTelegramId := Some(userTid))]
        && outbox == old(outbox) + [Outgoing(actor, SupportReplyPrompt(userTid))]
    {
      if !IsAdmin(adminIds, actor) {
        outbox := outbox + [Outgoing(actor, NotAuthorized)];
        return;
      }
      stateAdmin := stateAdmin[actor := MergeAdmin(AdminStateOf(actor),
        AdminState(Some(SupportReply), None, None, Some(userTid)))];
      outbox := outbox + [Outgoing(actor, SupportReplyPrompt(userTid))];
    }

    // -------------------------------------------------------------------------------------------
    // message router

    /**
     * The router's entry point: an admin's message goes to their session (`/annulla` first,
     * then a ticket answer, then a question), a user's to a pending ticket, then to a pending
     * answer, then to the questionnaire. `sent` says whether the one relay send the message may
     * cause is delivered. Every lane leaves the state it does not own unchanged.
     */
    method OnMessage(from: Sender, p: Payload, sent: bool) returns (lane: Lane)
      requires Valid()
      modifies this`db, this`stateUser, this`stateAdmin, this`pendingReplies, this`pendingSupport, this`outbox
      ensures Valid()
      ensures lane == Route(IsAdmin(adminIds, from.id), old(AdminStateOf(from.id)), p, from.id in old(pendingSupport),
                            old(UserStateOf(from.id)), old(ReplyFor(from.id)))
      ensures Handled(from, p, sent, lane, old(db), old(stateUser), old(stateAdmin), old(pendingReplies),
                      old(pendingSupport), old(outbox))
    {
      if IsAdmin(adminIds, from.id) {
        lane := AdminMessage(from, p, sent);
      } else {
        lane := UserMessage(from, p, sent);
      }
    }

    /**
     * What a message routed to `lane` did, given the state before it: the lane's own outcome,
     * and every part of the state the lane does not own left as it was.
     */
    ghost predicate Handled(from: Sender, p: Payload, sent: bool, lane: Lane, d0: Db, u0: map<TgId, UserState>,
                            a0: map<TgId, AdminState>, r0: map<TgId, PendingReply>, s0: set<TgId>, out0: seq<Outgoing>)
      reads this
    {
      var a := if from.id in a0 then a0[from.id] else NoAdminSession;
      && (!lane.Answering? && !lane.AdminQuestion? ==> db == d0)
      && (!lane.Answering? ==> stateUser == u0)
      && (!IsAdminLane(lane) ==> stateAdmin == a0)
      && (!lane.AdminQuestion? && !lane.UserAnswer? ==> pendingReplies == r0)
      && (!lane.SupportTicket? ==> pendingSupport == s0)
      && (lane.AdminIdle? || lane.UserIdle? ==> outbox == out0)
      && (lane.AdminCancel? ==> stateAdmin == a0 - {from.id} && outbox == out0 + [Outgoing(from.id, AdminCancelled)])
      && (lane.AdminSupportAnswer? ==>
            a.supportUserTelegramId.Some? &&
            SupportAnswerOutcome(from.id, a.supportUserTelegramId.value, p, sent, a0, out0))
      && (lane.AdminQuestion? ==> a.userTelegramId.Some? && QuestionOutcome(from.id, a, p, sent, d0, a0, r0, out0))
      && (lane.SupportTicket? ==>
            && pendingSupport == s0 - {from.id}
            && outbox == out0 + Fanout(adminIds, TicketHeader(from)) + TicketContents(from.id, p)
                         + [Outgoing(from.id, TicketReceived)])
      && (lane.UserAnswer? ==> from.id in r0 && ReplyOutcome(from, p, r0[from.id], sent, r0, out0))
      && (lane.Answering? ==> AnswerOutcome(from.id, p, d0, u0, out0))
    }

    /** The admin half of the router. */
    method AdminMessage(from: Sender, p: Payload, sent: bool) returns (lane: Lane)
      requires Valid() && IsAdmin(adminIds, from.id)
      modifies this`db, this`stateAdmin, this`pendingReplies, this`outbox
      ensures Valid()
      ensures lane == Route(true, old(AdminStateOf(from.id)), p, from.id in pendingSupport,
                            UserStateOf(from.id), ReplyFor(from.id))
      ensures Handled(from, p, sent, lane, old(db), stateUser, old(stateAdmin), old(pendingReplies),
                      pendingSupport, old(outbox))
    {
      var tid := from.id;
      var a := AdminStateOf(tid);
      if IsCancelCommand(p) {
        stateAdmin := stateAdmin - {tid};
        outbox := outbox + [Outgoing(tid, AdminCancelled)];
        return AdminCancel;
      }
      if a.mode == Some(SupportReply) && Truthy(a.supportUserTelegramId) {
        AnswerTicket(tid, a.supportUserTelegramId.value, p, sent);
        return AdminSupportAnswer;
      }
      if a.mode == Some(AskInfo) && Truthy(a.userTelegramId) {
        AskQuestion(tid, a, p, sent);
        return AdminQuestion;
      }
      return AdminIdle;
    }

    /** The user half of the router. */
    method UserMessage(from: Sender, p: Payload, sent: bool) returns (lane: Lane)
      requires Valid() && !IsAdmin(adminIds, from.id)
      modifies this`db, this`stateUser, this`pendingReplies, this`pendingSupport, this`outbox
      ensures Valid()
      ensures lane == Route(false, AdminStateOf(from.id), p, from.id in old(pendingSupport),
                            old(UserStateOf(from.id)), old(ReplyFor(from.id)))
      ensures Handled(from, p, sent, lane, old(db), old(stateUser), stateAdmin, old(pendingReplies),
                      old(pendingSupport), old(outbox))
    {
      var tid := from.id;
      if tid in pendingSupport {
        ForwardTicket(from, p);
        return SupportTicket;
      }
      var st := UserStateOf(tid);
      var reply := ReplyFor(tid);
      if st.step.None? && reply.Some? && reply.value.adminId != 0 {
        RelayReply(from, p, reply.value, sent);
        return UserAnswer;
      }
      if st.step.None? || st.requestId.None? {
        return UserIdle;
      }
      Answer(tid, p);
      return Answering;
    }

    /**
     * An admin's answer to a support ticket: a blank text is refused and keeps the session;
     * otherwise the content goes to the user (a message with nothing to forward sends nothing)
     * and the session ends whether or not the send was delivered.
     */
    ghost predicate SupportAnswerOutcome(tid: TgId, target: TgId, p: Payload, sent: bool,
                                         a0: map<TgId, AdminState>, out0: seq<Outgoing>)
      reads this
    {
      var c := Forwarded(p);
      if BlankText(c) then
        stateAdmin == a0 && outbox == out0 + [Outgoing(tid, AnswerNeedsContent)]
      else
        && stateAdmin == a0 - {tid}
        && outbox == out0 + (
             if c.None? then [Outgoing(tid, AnswerSent)]
             else if sent then [Outgoing(target, SupportAnswer(c.value)), Outgoing(tid, AnswerSent)]
             else [Outgoing(tid, AnswerFailed)])
    }

    method AnswerTicket(tid: TgId, target: TgId, p: Payload, sent: bool)
      modifies this`stateAdmin, this`outbox
      ensures SupportAnswerOutcome(tid, target, p, sent, old(stateAdmin), old(outbox))
    {
      var c := Forwarded(p);
      if BlankText(c) {
        outbox := outbox + [Outgoing(tid, AnswerNeedsContent)];
        return;
      }
      if c.Some? {
        if !sent {
          stateAdmin := stateAdmin - {tid};
          outbox := outbox + [Outgoing(tid, AnswerFailed)];
          return;
        }
        outbox := outbox + [Outgoing(target, SupportAnswer(c.value))];
      }
      stateAdmin := stateAdmin - {tid};
      outbox := outbox + [Outgoing(tid, AnswerSent)];
    }

    /**
     * An admin's question: a message without text is refused and keeps the session. A
     * delivered question records the pending answer, notes the question on the request and
     * ends the session; an undelivered one only ends the session.
     */
    ghost predicate QuestionOutcome(tid: TgId, a: AdminState, p: Payload, sent: bool, d0: Db,
                                    a0: map<TgId, AdminState>, r0: map<TgId, PendingReply>, out0: seq<Outgoing>)
      requires a.userTelegramId.Some?
      reads this
    {
      var txt := QuestionText(p);
      if txt == "" then
        db == d0 && stateAdmin == a0 && pendingReplies == r0 && outbox == out0 + [Outgoing(tid, QuestionNeedsText)]
      else if !sent then
        db == d0 && stateAdmin == a0 - {tid} && pendingReplies == r0 && outbox == out0 + [Outgoing(tid, QuestionFailed)]
      else
        && db == NotedQuestion(d0, a.requestId, txt)
        && stateAdmin == a0 - {tid}
        && pendingReplies == r0[a.userTelegramId.value := PendingReply(tid, a.requestId)]
        && outbox == out0 + [Outgoing(a.userTelegramId.value, AdminAsks(txt)), Outgoing(tid, QuestionSent)]
    }

    /** The note a delivered question writes on its request, when the session names one. */
    function NotedQuestion(d: Db, requestId: Option<RequestId>, txt: string): Db {
      if requestId.Some? then d.UpdateRequest(requestId.value, SetAdminNote(AskedInfo + txt)) else d
    }

    method AskQuestion(tid: TgId, a: AdminState, p: Payload, sent: bool)
      requires Valid() && a.userTelegramId.Some?
      modifies this`db, this`stateAdmin, this`pendingReplies, this`outbox
      ensures Valid()
      ensures QuestionOutcome(tid, a, p, sent, old(db), old(stateAdmin), old(pendingReplies), old(outbox))
    {
      var txt := QuestionText(p);
      if txt == "" {
        outbox := outbox + [Outgoing(tid, QuestionNeedsText)];
        return;
      }
      if !sent {
        stateAdmin := stateAdmin - {tid};
        outbox := outbox + [Outgoing(tid, QuestionFailed)];
        return;
      }
      var user := a.userTelegramId.value;
      outbox := outbox + [Outgoing(user, AdminAsks(txt))];
      pendingReplies := pendingReplies[user := PendingReply(tid, a.requestId)];
      if a.requestId.Some? {
        db := db.UpdateRequest(a.requestId.value, SetAdminNote(AskedInfo + txt));
      }
      stateAdmin := stateAdmin - {tid};
      outbox := outbox + [Outgoing(tid, QuestionSent)];
    }

    /** What a ticket forwards to every admin after the header: its content, when it has any. */
    function TicketContents(user: TgId, p: Payload): seq<Outgoing> {
      match Forwarded(p)
      case None => []
      case Some(c) => Fanout(adminIds, TicketContent(user, c))
    }

    /**
     * A user's message after SUPPORT: the ticket is closed, every admin gets the header and
     * then the content, and the user is told it was received.
     */
    method ForwardTicket(from: Sender, p: Payload)
      modifies this`pendingSupport, this`outbox
      ensures pendingSupport == old(pendingSupport) - {from.id}
      ensures outbox == old(outbox) + Fanout(adminIds, TicketHeader(from)) + TicketContents(from.id, p)
                        + [Outgoing(from.id, TicketReceived)]
    {
      pendingSupport := pendingSupport - {from.id};
      NotifyAdmins(TicketHeader(from));
      var c := Forwarded(p);
      if c.Some? {
        NotifyAdmins(TicketContent(from.id, c.value));
      }
      outbox := outbox + [Outgoing(from.id, TicketReceived)];
    }

    /** One message to each admin in turn; a send that fails is skipped. */
    method NotifyAdmins(m: Message)
      modifies this`outbox
      ensures outbox == old(outbox) + Fanout(adminIds, m)
    {
      for i := 0 to |adminIds|
        invariant outbox == old(outbox) + Fanout(adminIds[..i], m)
      {
        FanoutGrows(adminIds, i, m);
        outbox := outbox + [Outgoing(adminIds[i], m)];
      }
      assert adminIds[..|adminIds|] == adminIds;
    }

    /**
     * A user's answer to an admin's question: a blank text forwards nothing, anything else goes
     * to the admin. Unless a send failed, the user is told and the pending answer is dropped;
     * after a failure it stays, so the next message tries again.
     */
    ghost predicate ReplyOutcome(from: Sender, p: Payload, reply: PendingReply, sent: bool,
                                 r0: map<TgId, PendingReply>, out0: seq<Outgoing>)
      reads this
    {
      var c := Forwarded(p);
      var forwards := c.Some? && !BlankText(c);
      if forwards && !sent then
        pendingReplies == r0 && outbox == out0 + [Outgoing(from.id, AnswerNotForwarded)]
      else
        && pendingReplies == r0 - {from.id}
        && outbox == out0 + (if forwards then [Outgoing(reply.adminId, UserReply(reply.requestId, from, c.value))] else [])
                     + [Outgoing(from.id, AnswerForwarded)]
    }

    method RelayReply(from: Sender, p: Payload, reply: PendingReply, sent: bool)
      modifies this`pendingReplies, this`outbox
      ensures ReplyOutcome(from, p, reply, sent, old(pendingReplies), old(outbox))
    {
      var c := Forwarded(p);
      if c.Some? && !BlankText(c) {
        if !sent {
          outbox := outbox + [Outgoing(from.id, AnswerNotForwarded)];
          return;
        }
        outbox := outbox + [Outgoing(reply.adminId, UserReply(reply.requestId, from, c.value))];
      }
      outbox := outbox + [Outgoing(from.id, AnswerForwarded)];
      pendingReplies := pendingReplies - {from.id};
    }

    /**
     * A questionnaire message, by what the current step makes of it: an accepted answer is
     * stored, a rejected one asked again, at CONFIRM the user is pointed at the buttons, and at
     * OPERATOR nothing happens.
     */
    ghost predicate AnswerOutcome(tid: TgId, p: Payload, d0: Db, u0: map<TgId, UserState>, out0: seq<Outgoing>)
      reads this
    {
      var st := if tid in u0 then u0[tid] else NoSession;
      && st.step.Some? && st.requestId.Some?
      && match Advance(st.step.value, p)
         case Store(patch, next) => StoredOutcome(tid, st, patch, next, d0, u0, out0)
         case Retry(reason) => db == d0 && stateUser == u0 && outbox == out0 + [Outgoing(tid, Reprompt(st.step.value, reason))]
         case Remind => db == d0 && stateUser == u0 && outbox == out0 + [Outgoing(tid, UseButtons)]
         case Ignore => db == d0 && stateUser == u0 && outbox == out0
    }

    method Answer(tid: TgId, p: Payload)
      requires Valid() && UserStateOf(tid).step.Some? && UserStateOf(tid).requestId.Some?
      modifies this`db, this`stateUser, this`outbox
      ensures Valid()
      ensures AnswerOutcome(tid, p, old(db), old(stateUser), old(outbox))
    {
      var st := UserStateOf(tid);
      var step := st.step.value;
      match Advance(step, p)
      case Store(patch, next) =>
        StoreAnswer(tid, patch, next);
      case Retry(reason) =>
        outbox := outbox + [Outgoing(tid, Reprompt(step, reason))];
      case Remind =>
        outbox := outbox + [Outgoing(tid, UseButtons)];
      case Ignore =>
    }

    /**
     * An accepted answer: the patch is written to the session's request and the session moves
     * to the next step with its prompt; on reaching CONFIRM the request is read back for the
     * recap, and a request that cannot be read ends the session with an error.
     */
    ghost predicate StoredOutcome(tid: TgId, st: UserState, patch: Patch, next: Step,
                                  d0: Db, u0: map<TgId, UserState>, out0: seq<Outgoing>)
      requires st.requestId.Some?
      reads this
    {
      var rid := st.requestId.value;
      && db == d0.UpdateRequest(rid, patch)
      && if next != Confirm then
           stateUser == u0[tid := st.(step := Some(next))] && outbox == out0 + [Outgoing(tid, StepPrompt(next))]
         else
           match db.GetRequest(rid)
           case Err(_) => stateUser == u0 - {tid} && outbox == out0 + [Outgoing(tid, CompilationError)]
           case Ok(req) => stateUser == u0[tid := st.(step := Some(Confirm))] && outbox == out0 + [Outgoing(tid, Summary(req))]
    }

    method StoreAnswer(tid: TgId, patch: Patch, next: Step)
      requires Valid() && UserStateOf(tid).requestId.Some?
      modifies this`db, this`stateUser, this`outbox
      ensures Valid()
      ensures StoredOutcome(tid, old(UserStateOf(tid)), patch, next, old(db), old(stateUser), old(outbox))
    {
      var st := UserStateOf(tid);
      var rid := st.requestId.value;
      db := db.UpdateRequest(rid, patch);
      MergeStep(st, next);
      if next != Confirm {
        stateUser := stateUser[tid := Merge(st, AtStep(next))];
        outbox := outbox + [Outgoing(tid, StepPrompt(next))];
        return;
      }
      var read := db.GetRequest(rid);
      if read.Err? {
        outbox := outbox + [Outgoing(tid, CompilationError)];
        stateUser := stateUser - {tid};
        return;
      }
      stateUser := stateUser[tid := Merge(st, AtStep(Confirm))];
      outbox := outbox + [Outgoing(tid, Summary(read.value))];
    }
  }
}
