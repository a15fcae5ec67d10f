/**
 * The Supabase tables the bot uses, as maps: `users`, `user_invites`, `cashback_requests` and
 * `invite_redemptions`, with the reads and writes of the DB helpers. Serial ids start at 1 and
 * `user_invites` has unique `user_id` and `code` columns; an update that matches no row changes
 * nothing and is not an error, while a `.single()` read of a missing row is.
 */
module Store {
  import opened Wrappers
  import opened Ids
  import opened JsText
  import opened InviteCodes
  import opened Requests
  import opened Inbound

  datatype UserRow = UserRow(
    telegramId: TgId,
    username: Option<string>,
    firstName: Option<string>,
    lastName: Option<string>,
    lastSeenAt: Time)

  /** `x || null` on an optional string: an empty string is stored as null. */
  function Nullable(x: Option<string>): Option<string> {
    if x.Some? && x.value != "" then x else None
  }

  /** The payload `upsertUser` writes for the sender. */
  function Profile(from: Sender, now: Time): UserRow {
    UserRow(from.id, Nullable(from.username), Nullable(from.firstName), Nullable(from.lastName), now)
  }

  /** A `user_invites` row without its key: the code and `referrals_count`. */
  datatype Invite = Invite(code: string, referrals: nat)

  /** An `invite_redemptions` row. */
  datatype Redemption = Redemption(userId: UserId, prize: string, note: string, status: string)

  /** Why a store operation threw: a `.single()` read found no row, the store rejected a write, or no unique code was found. */
  datatype Failure = NoRow | StoreError(message: string) | NoUniqueCode

  /** The randomness and the store's answer behind one insert attempt of `ensureInviteCode`. */
  datatype Attempt = Attempt(draws: seq<real>, fault: Option<string>)

  /** `ensureInviteCode` tries at most this many inserts. */
  const MaxAttempts: nat := 8

  /** One attempt per iteration of the retry loop, each with the draws for one code. */
  predicate WellFormed(attempts: seq<Attempt>) {
    && |attempts| == MaxAttempts
    && forall i :: 0 <= i < |attempts| ==> |attempts[i].draws| == CodeLength && AreDraws(attempts[i].draws)
  }

  /** The code an attempt tries to insert: `VIP-` and eight characters picked by its draws. */
  function Candidate(a: Attempt): (code: string)
    requires |a.draws| == CodeLength && AreDraws(a.draws)
    ensures IsInviteCode(code)
  {
    PrefixedIsInviteCode(CodeFromDraws(a.draws));
    Prefix + CodeFromDraws(a.draws)
  }

  /** `users`: the rows by serial id, `telegram_id` as a unique index, and the next serial id. */
  datatype UserTable = UserTable(rows: map<UserId, UserRow>, byTelegram: map<TgId, UserId>, nextId: UserId)
  {
    /** Serial ids are positive and below the next one; `telegram_id` indexes the rows. */
    ghost predicate Valid() {
      && 0 < nextId
      && (forall u :: u in rows ==> 0 < u < nextId)
      && (forall t :: t in byTelegram ==> byTelegram[t] in rows && rows[byTelegram[t]].telegramId == t)
    }
  }

  /** `user_invites`: the row of each user, and the unique `code` column as an index. */
  datatype InviteTable = InviteTable(rows: map<UserId, Invite>, byCode: map<string, UserId>)
  {
    /** Each user has one code and each code one user. */
    ghost predicate Valid() {
      && (forall u :: u in rows ==> rows[u].code in byCode && byCode[rows[u].code] == u)
      && (forall c :: c in byCode ==> byCode[c] in rows && rows[byCode[c]].code == c)
    }

    /** Every stored code has the `VIP-` shape. */
    ghost predicate CodesWellFormed() {
      forall u :: u in rows ==> IsInviteCode(rows[u].code)
    }
  }

  /** `cashback_requests`: the rows by serial id and the next serial id. */
  datatype RequestTable = RequestTable(rows: map<RequestId, Request>, nextId: RequestId)
  {
    /** Serial ids are positive and below the next one. */
    ghost predicate Valid() {
      && 0 < nextId
      && (forall r :: r in rows ==> 0 < r < nextId)
    }
  }

  datatype Db = Db(users: UserTable, invites: InviteTable, requests: RequestTable, redemptions: seq<Redemption>)
  {
    ghost predicate Valid() {
      users.Valid() && invites.Valid() && requests.Valid()
    }

    /**
     * `upsertUser`'s row write: the row of the sender's Telegram id is overwritten, or a new row
     * is inserted under the next serial id.
     */
    function SaveUser(row: UserRow): (Db, UserId) {
      if row.telegramId in users.byTelegram then
        var id := users.byTelegram[row.telegramId];
        (this.(users := users.(rows := users.rows[id := row])), id)
      else
        var id := users.nextId;
        (this.(users := UserTable(users.rows[id := row], users.byTelegram[row.telegramId := id], id + 1)), id)
    }

    /**
     * The error the insert of `(user_id, code)` into `user_invites` reports: a unique-constraint
     * violation when the user or the code is already there, otherwise whatever the store answers.
     */
    function InsertInviteError(uid: UserId, code: string, fault: Option<string>): (e: Option<string>)
      ensures uid in invites.rows || code in invites.byCode ==> e == Some(DuplicateKeyMessage)
      ensures uid !in invites.rows && code !in invites.byCode ==> e == fault
    {
      if uid in invites.rows || code in invites.byCode then Some(DuplicateKeyMessage) else fault
    }

    /** The table after a successful insert; `referrals_count` starts at 0. */
    function WithInvite(uid: UserId, code: string): Db {
      this.(invites := InviteTable(invites.rows[uid := Invite(code, 0)], invites.byCode[code := uid]))
    }

    /** The outcome of the retry loop of `ensureInviteCode` from iteration `i` on. */
    function IssueFrom(uid: UserId, attempts: seq<Attempt>, i: nat): Result<string, Failure>
      requires WellFormed(attempts) && i <= MaxAttempts
      decreases MaxAttempts - i
    {
      if i == MaxAttempts then Err(NoUniqueCode)
      else
        var code := Candidate(attempts[i]);
        match InsertInviteError(uid, code, attempts[i].fault)
        case None => Ok(code)
        case Some(m) => if IsCollision(m) then IssueFrom(uid, attempts, i + 1) else Err(StoreError(m))
    }

    /** Iteration `j` of the retry loop hits an error that is retried. */
    predicate CollidesAt(uid: UserId, attempts: seq<Attempt>, j: nat)
      requires WellFormed(attempts) && j < MaxAttempts
    {
      var e := InsertInviteError(uid, Candidate(attempts[j]), attempts[j].fault);
      e.Some? && IsCollision(e.value)
    }

    /** `ensureInviteCode(userId)`: the existing code, or the code the retry loop inserts. */
    function EnsuredInvite(uid: UserId, attempts: seq<Attempt>): (Db, Result<string, Failure>)
      requires WellFormed(attempts)
    {
      if uid in invites.rows then (this, Ok(invites.rows[uid].code))
      else
        match IssueFrom(uid, attempts, 0)
        case Ok(code) => (WithInvite(uid, code), Ok(code))
        case Err(e) => (this, Err(e))
    }

    /** `upsertUser(ctx)`: the row write, then `ensureInviteCode` for the user's id. */
    function Upserted(from: Sender, now: Time, attempts: seq<Attempt>): (Db, Result<UserId, Failure>)
      requires WellFormed(attempts)
    {
      var (d, id) := SaveUser(Profile(from, now));
      var (d', c) := d.EnsuredInvite(id, attempts);
      (d', if c.Ok? then Ok(id) else Err(c.error))
    }

    /** `getInviteRowByUserId` (a `.single()` read). */
    function InviteOf(uid: UserId): (r: Result<Invite, Failure>)
      ensures r.Ok? <==> uid in invites.rows
      ensures r.Ok? ==> r.value == invites.rows[uid]
      ensures r.Err? ==> r.error == NoRow
    {
      if uid in invites.rows then Ok(invites.rows[uid]) else Err(NoRow)
    }

    /** `update user_invites set referrals_count = n where user_id = uid`: no code and no other table changes. */
    function SetReferrals(uid: UserId, n: nat): (d: Db)
      ensures uid in invites.rows ==> d.invites.rows == invites.rows[uid := Invite(invites.rows[uid].code, n)]
      ensures uid !in invites.rows ==> d == this
      ensures d.invites.byCode == invites.byCode
      ensures d.users == users && d.requests == requests && d.redemptions == redemptions
      ensures Valid() ==> d.Valid()
    {
      if uid in invites.rows
      then this.(invites := invites.(rows := invites.rows[uid := Invite(invites.rows[uid].code, n)]))
      else this
    }

    /** `createDraftRequest`: a DRAFT row under the next serial id. */
    function InsertRequest(uid: UserId, campaign: string): (r: (Db, RequestId))
      ensures r.1 == requests.nextId
      ensures r.0.requests == RequestTable(requests.rows[r.1 := NewDraft(uid, campaign)], r.1 + 1)
      ensures r.0.users == users && r.0.invites == invites && r.0.redemptions == redemptions
      ensures Valid() ==> r.1 !in requests.rows && r.0.Valid()
    {
      var id := requests.nextId;
      (this.(requests := RequestTable(requests.rows[id := NewDraft(uid, campaign)], id + 1)), id)
    }

    /** `updateRequest(id, patch)`: patches the row with that id, if there is one. */
    function UpdateRequest(id: RequestId, p: Patch): (d: Db)
      ensures id in requests.rows ==> d.requests.rows == requests.rows[id := Apply(requests.rows[id], p)]
      ensures id !in requests.rows ==> d == this
      ensures d.requests.nextId == requests.nextId
      ensures d.users == users && d.invites == invites && d.redemptions == redemptions
      ensures Valid() ==> d.Valid()
    {
      if id in requests.rows
      then this.(requests := requests.(rows := requests.rows[id := Apply(requests.rows[id], p)]))
      else this
    }

    /**
     * `setStatus(requestId, status, note)`: the row takes the new status whatever its current one;
     * `submitted_at` is stamped exactly for SUBMITTED and `admin_note` changes exactly when a note
     * is given; no other row and no other table changes.
     */
    function SetStatus(id: RequestId, status: Status, note: Option<string>, now: Time): (d: Db)
      ensures id !in requests.rows ==> d == this
      ensures id in requests.rows ==> id in d.requests.rows && d.requests.rows[id].status == status
      ensures id in requests.rows ==>
        d.requests.rows[id].submittedAt == if status == Submitted then Some(now) else requests.rows[id].submittedAt
      ensures id in requests.rows ==>
        d.requests.rows[id].adminNote == if note.Some? then note else requests.rows[id].adminNote
      ensures id in requests.rows ==>
        d.requests.rows[id].(status := requests.rows[id].status, adminNote := requests.rows[id].adminNote,
                             submittedAt := requests.rows[id].submittedAt) == requests.rows[id]
      ensures forall k :: k in requests.rows && k != id ==> k in d.requests.rows && d.requests.rows[k] == requests.rows[k]
      ensures d.requests.rows.Keys == requests.rows.Keys && d.requests.nextId == requests.nextId
      ensures d.users == users && d.invites == invites && d.redemptions == redemptions
      ensures Valid() ==> d.Valid()
    {
      UpdateRequest(id, StatusPatch(status, note, now))
    }

    /** `getRequest(id)` (a `.single()` read). */
    function GetRequest(id: RequestId): (r: Result<Request, Failure>)
      ensures r.Ok? <==> id in requests.rows
      ensures r.Ok? ==> r.value == requests.rows[id]
      ensures r.Err? ==> r.error == NoRow
    {
      if id in requests.rows then Ok(requests.rows[id]) else Err(NoRow)
    }

    /** `getUserTelegramIdByUserId(userId)` (a `.single()` read). */
    function TelegramIdOf(uid: UserId): (r: Result<TgId, Failure>)
      ensures r.Ok? <==> uid in users.rows
      ensures r.Ok? ==> r.value == users.rows[uid].telegramId
    {
      if uid in users.rows then Ok(users.rows[uid].telegramId) else Err(NoRow)
    }

    /** `isVipApproved(userId)`: some `vip_access` request of the user is APPROVED. */
    predicate IsVipApproved(uid: UserId) {
      exists id :: id in requests.rows && requests.rows[id].userId == uid && requests.rows[id].campaign == VipCampaign
        && requests.rows[id].status == Approved
    }

    /** The insert into `invite_redemptions`. */
    function AddRedemption(r: Redemption): Db {
      this.(redemptions := redemptions + [r])
    }
  }

  /** The tables before the first update. */
  const Empty: Db := Db(UserTable(map[], map[], 1), InviteTable(map[], map[]), RequestTable(map[], 1), [])

  lemma EmptyValid()
    ensures Empty.Valid()
  {
  }

  /**
   * The user row write keeps the store consistent, leaves the other tables alone, stores the
   * row, and keeps the id of a sender already known: the same Telegram account is one user.
   */
  lemma SaveUserFacts(db: Db, row: UserRow)
    requires db.Valid()
    ensures var (d, id) := db.SaveUser(row);
      && d.Valid()
      && id in d.users.rows && d.users.rows[id] == row
      && row.telegramId in d.users.byTelegram && d.users.byTelegram[row.telegramId] == id
      && (row.telegramId in db.users.byTelegram ==> id == db.users.byTelegram[row.telegramId])
      && (row.telegramId !in db.users.byTelegram ==> id !in db.users.rows)
      && d.invites == db.invites && d.requests == db.requests && d.redemptions == db.redemptions
  {
  }

  /**
   * Reads see the writes before them: `getRequest` after `createDraftRequest` returns the new
   * DRAFT under the returned id; after `updateRequest` it returns the patched row, and a missing
   * row stays missing.
   */
  lemma RequestReadBack(db: Db, uid: UserId, campaign: string, id: RequestId, p: Patch)
    ensures var (d, nid) := db.InsertRequest(uid, campaign); d.GetRequest(nid) == Ok(NewDraft(uid, campaign))
    ensures id in db.requests.rows ==> db.UpdateRequest(id, p).GetRequest(id) == Ok(Apply(db.requests.rows[id], p))
    ensures id !in db.requests.rows ==> db.UpdateRequest(id, p).GetRequest(id) == Err(NoRow)
  {
  }

  /** After `upsertUser`'s row write, the returned id leads back to the sender's Telegram id. */
  lemma UserReadBack(db: Db, row: UserRow)
    requires db.Valid()
    ensures var (d, id) := db.SaveUser(row); d.TelegramIdOf(id) == Ok(row.telegramId)
  {
    SaveUserFacts(db, row);
  }

  /**
   * `getInviteRowByUserId` after `ensureInviteCode` finds the code it returned, and after a
   * counter write finds the same code with the new counter; a user without a row is a missing row.
   */
  lemma InviteReadBack(db: Db, uid: UserId, attempts: seq<Attempt>, n: nat)
    requires db.Valid() && WellFormed(attempts)
    ensures var (d, r) := db.EnsuredInvite(uid, attempts);
      r.Ok? ==> d.InviteOf(uid).Ok? && d.InviteOf(uid).value.code == r.value
    ensures uid in db.invites.rows ==> db.SetReferrals(uid, n).InviteOf(uid) == Ok(Invite(db.invites.rows[uid].code, n))
    ensures uid !in db.invites.rows ==> db.SetReferrals(uid, n).InviteOf(uid) == Err(NoRow)
  {
    EnsuredInviteFacts(db, uid, attempts);
  }

  /**
   * The unique columns of `user_invites`: once a code is inserted for a user, a second insert
   * for that user, or of that code for anyone, reports the unique violation the loop retries on.
   */
  lemma InsertedCodeCollides(db: Db, uid: UserId, code: string, other: UserId, code2: string, fault: Option<string>)
    ensures db.WithInvite(uid, code).InsertInviteError(other, code, fault) == Some(DuplicateKeyMessage)
    ensures db.WithInvite(uid, code).InsertInviteError(uid, code2, fault) == Some(DuplicateKeyMessage)
    ensures IsCollision(DuplicateKeyMessage)
  {
    DuplicateKeyIsCollision();
  }

  /**
   * Every outcome of the retry loop: a code it returns is well-formed, not yet taken, and only
   * returned to a user without a row; a failure is either the loop running out of attempts or
   * the first error that is not a collision, rethrown as it is.
   */
  lemma {:induction false} IssueFromFacts(db: Db, uid: UserId, attempts: seq<Attempt>, i: nat)
    requires WellFormed(attempts) && i <= MaxAttempts
    ensures var r := db.IssueFrom(uid, attempts, i);
      && (r.Ok? ==> IsInviteCode(r.value) && r.value !in db.invites.byCode && uid !in db.invites.rows)
      && (r.Err? ==> r.error == NoUniqueCode || (r.error.StoreError? && !IsCollision(r.error.message)))
    decreases MaxAttempts - i
  {
    if i < MaxAttempts {
      var code := Candidate(attempts[i]);
      var e := db.InsertInviteError(uid, code, attempts[i].fault);
      if e.Some? && IsCollision(e.value) {
        IssueFromFacts(db, uid, attempts, i + 1);
      }
    }
  }

  /** The loop gives up with "no unique code" only when every remaining attempt hit a retried error. */
  lemma {:induction false} ExhaustedMeansAllCollided(db: Db, uid: UserId, attempts: seq<Attempt>, i: nat)
    requires WellFormed(attempts) && i <= MaxAttempts
    ensures db.IssueFrom(uid, attempts, i) == Err(NoUniqueCode) ==>
      forall j :: i <= j < MaxAttempts ==> db.CollidesAt(uid, attempts, j)
    decreases MaxAttempts - i
  {
    if i < MaxAttempts && db.IssueFrom(uid, attempts, i) == Err(NoUniqueCode) {
      assert db.CollidesAt(uid, attempts, i);
      ExhaustedMeansAllCollided(db, uid, attempts, i + 1);
      forall j | i <= j < MaxAttempts ensures db.CollidesAt(uid, attempts, j) {
        if j > i {
          assert i + 1 <= j;
        }
      }
    }
  }

  /** Conversely, when every remaining attempt hits a retried error the loop gives up. */
  lemma {:induction false} AllCollidedExhausts(db: Db, uid: UserId, attempts: seq<Attempt>, i: nat)
    requires WellFormed(attempts) && i <= MaxAttempts
    requires forall j :: i <= j < MaxAttempts ==> db.CollidesAt(uid, attempts, j)
    ensures db.IssueFrom(uid, attempts, i) == Err(NoUniqueCode)
    decreases MaxAttempts - i
  {
    if i < MaxAttempts {
      assert db.CollidesAt(uid, attempts, i);
      AllCollidedExhausts(db, uid, attempts, i + 1);
    }
  }

  /** A non-collision error at the current attempt is rethrown without another try. */
  lemma RethrowsOtherErrors(db: Db, uid: UserId, attempts: seq<Attempt>, i: nat, m: string)
    requires WellFormed(attempts) && i < MaxAttempts
    requires db.InsertInviteError(uid, Candidate(attempts[i]), attempts[i].fault) == Some(m)
    requires !IsCollision(m)
    ensures db.IssueFrom(uid, attempts, i) == Err(StoreError(m))
  {
  }

  /**
   * `ensureInviteCode`: an existing row is returned as it is and nothing is written; otherwise a
   * successful run inserts exactly one fresh, well-formed code with a zero counter, and a failed
   * run writes nothing. The pairing of users and codes stays one to one.
   */
  lemma EnsuredInviteFacts(db: Db, uid: UserId, attempts: seq<Attempt>)
    requires db.Valid() && WellFormed(attempts)
    ensures var (d, r) := db.EnsuredInvite(uid, attempts);
      && d.Valid()
      && (uid in db.invites.rows ==> d == db && r == Ok(db.invites.rows[uid].code))
      && (uid !in db.invites.rows && r.Ok? ==>
            r.value !in db.invites.byCode && IsInviteCode(r.value) && d == db.WithInvite(uid, r.value)
            && d.invites.rows == db.invites.rows[uid := Invite(r.value, 0)])
      && (r.Err? ==> d == db)
      && (r.Ok? ==> uid in d.invites.rows && d.invites.rows[uid].code == r.value)
      && d.users == db.users && d.requests == db.requests && d.redemptions == db.redemptions
  {
    IssueFromFacts(db, uid, attempts, 0);
  }

  /**
   * `upsertUser`: on success the sender has a row holding the profile, an invite code, and the
   * same id as before when already known. Requests and redemptions never change.
   */
  lemma UpsertedFacts(db: Db, from: Sender, now: Time, attempts: seq<Attempt>)
    requires db.Valid() && WellFormed(attempts)
    ensures var (d, r) := db.Upserted(from, now, attempts);
      && d.Valid()
      && (r.Ok? ==> r.value in d.users.rows && d.users.rows[r.value] == Profile(from, now) && r.value in d.invites.rows)
      && (r.Ok? ==> from.id in d.users.byTelegram && d.users.byTelegram[from.id] == r.value)
      && (r.Ok? && from.id in db.users.byTelegram ==> r.value == db.users.byTelegram[from.id])
      && (r.Err? ==> r.error == NoUniqueCode || (r.error.StoreError? && !IsCollision(r.error.message)))
      && d.requests == db.requests && d.redemptions == db.redemptions
  {
    var (d, id) := db.SaveUser(Profile(from, now));
    SaveUserFacts(db, Profile(from, now));
    EnsuredInviteFacts(d, id, attempts);
    if id !in d.invites.rows {
      IssueFromFacts(d, id, attempts, 0);
    }
  }

  /**
   * Codes only enter the table through `ensureInviteCode`'s insert, so every stored code keeps
   * the `VIP-` shape whatever the bot writes: user rows, counters, requests.
   */
  lemma CodesStayWellFormed(db: Db, uid: UserId, n: nat, from: Sender, now: Time, attempts: seq<Attempt>)
    requires db.Valid() && db.invites.CodesWellFormed() && WellFormed(attempts)
    ensures db.EnsuredInvite(uid, attempts).0.invites.CodesWellFormed()
    ensures db.Upserted(from, now, attempts).0.invites.CodesWellFormed()
    ensures db.SetReferrals(uid, n).invites.CodesWellFormed()
  {
    EnsuredInviteFacts(db, uid, attempts);
    var (d, id) := db.SaveUser(Profile(from, now));
    SaveUserFacts(db, Profile(from, now));
    EnsuredInviteFacts(d, id, attempts);
  }
}
