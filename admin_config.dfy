/**
 * Configuration read from the environment: the admin id list (`ADMIN_TELEGRAM_IDS`, a
 * comma-separated list), the optional VIP channel id, and the `isAdmin` test built on them.
 */
module AdminConfig {
  import opened Wrappers
  import opened Ids
  import opened JsText

  /**
   * The pipeline `.map(trim).filter(Boolean).map(Number).filter(Number.isFinite)` over the
   * pieces of the list; `Number` of a trimmed, non-blank piece is `ParseInt`.
   */
  function ParseIds(parts: seq<string>): (ids: seq<TgId>)
    ensures |ids| <= |parts|
  {
    if parts == [] then []
    else
      var t := Trim(parts[0]);
      var rest := ParseIds(parts[1..]);
      if t == "" then rest
      else match ParseInt(t)
        case Some(n) => [n] + rest
        case None => rest
  }

  /** A piece yields an id when it is not blank once trimmed and that trimmed text is a number. */
  predicate Yields(piece: string, x: TgId) {
    Trim(piece) != "" && ParseInt(Trim(piece)) == Some(x)
  }

  /** An id is parsed exactly when some piece of the list yields it. */
  lemma {:induction false} ParseIdsMembers(parts: seq<string>, x: TgId)
    ensures x in ParseIds(parts) <==> exists i :: 0 <= i < |parts| && Yields(parts[i], x)
  {
    if parts != [] {
      ParseIdsMembers(parts[1..], x);
      if exists i :: 1 <= i < |parts| && Yields(parts[i], x) {
        var i :| 1 <= i < |parts| && Yields(parts[i], x);
        assert parts[1..][i - 1] == parts[i];
      }
      if exists i :: 0 <= i < |parts[1..]| && Yields(parts[1..][i], x) {
        var i :| 0 <= i < |parts[1..]| && Yields(parts[1..][i], x);
        assert parts[i + 1] == parts[1..][i];
      }
    }
  }

  /** `adminIds`: the ids listed in `ADMIN_TELEGRAM_IDS`. */
  function ParseAdminIds(raw: string): seq<TgId> {
    ParseIds(Split(raw, ','))
  }

  /** Each id in decimal notation. */
  function Shown(ids: seq<TgId>): (r: seq<string>)
    ensures |r| == |ids|
    ensures forall i :: 0 <= i < |ids| ==> r[i] == ShowInt(ids[i])
  {
    if ids == [] then [] else [ShowInt(ids[0])] + Shown(ids[1..])
  }

  /** A list of ids written the way an operator sets the variable: decimal, comma-separated. */
  function Render(ids: seq<TgId>): string {
    if ids == [] then "" else Join(Shown(ids), ',')
  }

  lemma {:induction false} ParseShownIds(ids: seq<TgId>)
    ensures ParseIds(Shown(ids)) == ids
  {
    if ids != [] {
      var p := Shown(ids);
      ParseShowInt(ids[0]);
      assert p[0] == ShowInt(ids[0]);
      assert Trim(p[0]) == p[0] != "";
      assert ParseInt(Trim(p[0])) == Some(ids[0]);
      assert p[1..] == Shown(ids[1..]);
      ParseShownIds(ids[1..]);
      assert ParseIds(p) == [ids[0]] + ParseIds(p[1..]);
      assert [ids[0]] + ids[1..] == ids;
    }
  }

  /** Every list of ids, written out comma-separated, reads back as the same list in the same order. */
  lemma RenderParses(ids: seq<TgId>)
    ensures ParseAdminIds(Render(ids)) == ids
  {
    if ids == [] {
      assert Split("", ',') == [""];
      assert Trim("") == "";
    } else {
      var shown := Shown(ids);
      forall i | 0 <= i < |shown| ensures ',' !in shown[i] {
        var r := ShowInt(ids[i]);
        assert forall k :: 0 <= k < |r| ==> r[k] != ',';
      }
      SplitJoin(shown, ',');
      ParseShownIds(ids);
    }
  }

  /** `isAdmin(ctx)`: the sender's id is in the configured list. */
  predicate IsAdmin(adminIds: seq<TgId>, id: TgId) {
    id in adminIds
  }

  /** `getVipChannelId()`: unset, or `Number(VIP_CHANNEL_ID)` when it is finite. */
  function VipChannelId(raw: string): (r: Option<int>)
    ensures raw == "" ==> r == None
    ensures raw != "" && Trim(raw) == "" ==> r == Some(0)
    ensures r.None? <==> raw == "" || JsNumber(raw).None?
  {
    if raw == "" then None else JsNumber(raw)
  }

  /**
   * A channel id written in decimal is read as that number, so the approval link is minted
   * single-use exactly when the id is not 0.
   */
  lemma VipChannelIdOfNumber(n: int)
    ensures VipChannelId(ShowInt(n)) == Some(n)
    ensures Truthy(VipChannelId(ShowInt(n))) <==> n != 0
  {
    ParseShowInt(n);
  }

  /** JavaScript truthiness of a numeric id: present and not 0. */
  predicate Truthy(id: Option<int>) {
    id.Some? && id.value != 0
  }
}
