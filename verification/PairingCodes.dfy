/**
 Single-use pairing codes (hub/db.py). Minting deletes and then inserts; redeeming selects
 and then updates. Each SQL statement is one step and any number of callers interleave.
 */
module PairingCodes {
  import opened Prelude

  type Code = string
  type User = nat
  type Caller = nat

  const PAIRING_TTL: int := 600

  /** serial numbers the rows in the order they were inserted; it is history, not a column. */
  datatype Row = Row(serial: nat, user: User, expiresAt: int, used: bool)

  /** The table and the number of rows ever inserted. */
  datatype Codes = Codes(rows: map<Code, Row>, minted: nat)

  predicate Redeemable(t: Codes, code: Code, now: int) {
    code in t.rows && !t.rows[code].used && t.rows[code].expiresAt > now
  }

  /** create_pairing_code's DELETE. */
  function Dropped(t: Codes, user: User, now: int): Codes {
    t.(rows := map c | c in t.rows && !(t.rows[c].expiresAt < now || (t.rows[c].user == user && !t.rows[c].used)) :: t.rows[c])
  }

  /** create_pairing_code's INSERT; a code already in the table makes it fail. */
  function Inserted(t: Codes, code: Code, user: User, now: int): Codes {
    if code in t.rows then t
    else Codes(t.rows[code := Row(t.minted, user, now + PAIRING_TTL, false)], t.minted + 1)
  }

  /** consume_pairing_code's UPDATE. */
  function Marked(t: Codes, code: Code): Codes {
    if code in t.rows && !t.rows[code].used then t.(rows := t.rows[code := t.rows[code].(used := true)]) else t
  }

  function Purged(t: Codes, now: int): Codes {
    t.(rows := map c | c in t.rows && t.rows[c].expiresAt >= now :: t.rows[c])
  }

  /** Neither expired nor an unused code of this user. */
  predicate Survives(r: Row, user: User, now: int) {
    r.expiresAt >= now && (r.used || r.user != user)
  }

  /** The table, used by one caller at a time. */
  class PairingTable {
    var table: Codes

    constructor ()
      ensures table == Codes(map[], 0)
    {
      table := Codes(map[], 0);
    }

    method CreatePairingCode(code: Code, user: User, now: int) returns (ok: bool)
      modifies this
      ensures table == Inserted(Dropped(old(table), user, now), code, user, now)
      ensures forall c :: c != code ==>
        (c in table.rows <==> c in old(table).rows && Survives(old(table).rows[c], user, now))
      ensures forall c :: c in table.rows && c in old(table).rows && Survives(old(table).rows[c], user, now) ==>
        table.rows[c] == old(table).rows[c]
      ensures ok <==> code !in old(table).rows || !Survives(old(table).rows[code], user, now)
      ensures ok ==> Redeemable(table, code, now) && table.rows[code].user == user
      ensures ok ==> table.rows[code].expiresAt == now + 600
      ensures !ok ==> code in old(table).rows && table.rows[code] == old(table).rows[code]
    {
      table := Dropped(table, user, now);
      ok := code !in table.rows;
      table := Inserted(table, code, user, now);
    }

    method ConsumePairingCode(code: Code, now: int) returns (owner: Option<User>)
      modifies this
      ensures owner == if Redeemable(old(table), code, now) then Some(old(table).rows[code].user) else None
      ensures owner.Some? <==> code in old(table).rows && !old(table).rows[code].used && old(table).rows[code].expiresAt > now
      ensures owner.Some? ==> table == Marked(old(table), code) && !Redeemable(table, code, now)
      ensures owner == None ==> table == old(table)
    {
      if !(code in table.rows && !table.rows[code].used && table.rows[code].expiresAt > now) { return None; }
      owner := Some(table.rows[code].user);
      table := Marked(table, code);
    }

    method PurgeExpired(now: int)
      modifies this
      ensures table == Purged(old(table), now)
      ensures forall c :: c in table.rows <==> c in old(table).rows && old(table).rows[c].expiresAt >= now
      ensures forall c :: c in table.rows ==> table.rows[c] == old(table).rows[c]
    {
      table := Purged(table, now);
    }
  }

  // ----- statement by statement -----

  /** What a caller's SELECT returned. */
  datatype Claim = Claim(code: Code, row: Row, at: int)

  /** A successful call: the claim it returned to its caller, and the row its UPDATE marked. */
  datatype Redemption = Redemption(claim: Claim, marked: nat)

  datatype Sys = Sys(table: Codes, claims: map<Caller, Claim>, redeemed: map<Caller, Redemption>)

  datatype Event =
    | Delete(user: User, now: int)
    | Insert(code: Code, user: User, now: int)
    | Select(caller: Caller, code: Code, now: int)
    | Update(caller: Caller)
    | Purge(now: int)

  const EMPTY := Sys(Codes(map[], 0), map[], map[])

  predicate Enabled(s: Sys, e: Event) {
    match e
    case Select(c, _, _) => c !in s.claims && c !in s.redeemed
    case Update(c) => c in s.claims
    case _ => true
  }

  function Step(s: Sys, e: Event): Sys
    requires Enabled(s, e)
  {
    match e
    case Delete(user, now) => s.(table := Dropped(s.table, user, now))
    case Insert(code, user, now) => s.(table := Inserted(s.table, code, user, now))
    case Select(c, code, now) =>
      if Redeemable(s.table, code, now) then s.(claims := s.claims[c := Claim(code, s.table.rows[code], now)]) else s
    case Update(c) =>
      var claim := s.claims[c];
      Sys(Marked(s.table, claim.code), s.claims - {c},
          if claim.code in s.table.rows && !s.table.rows[claim.code].used
          then s.redeemed[c := Redemption(claim, s.table.rows[claim.code].serial)] else s.redeemed)
    case Purge(now) => s.(table := Purged(s.table, now))
  }

  predicate Valid(s: Sys, es: seq<Event>)
    decreases es
  {
    es != [] ==> Enabled(s, es[0]) && Valid(Step(s, es[0]), es[1..])
  }

  function Run(s: Sys, es: seq<Event>): Sys
    requires Valid(s, es)
    decreases es
  {
    if es == [] then s else Run(Step(s, es[0]), es[1..])
  }

  /** The row with this serial, if it is still there, is used up. */
  predicate UsedUp(t: Codes, serial: nat) {
    serial < t.minted && forall c :: c in t.rows && t.rows[c].serial == serial ==> t.rows[c].used
  }

  ghost predicate Inv(s: Sys) {
    && (forall c :: c in s.table.rows ==> s.table.rows[c].serial < s.table.minted)
    && (forall c, d :: c in s.table.rows && d in s.table.rows && s.table.rows[c].serial == s.table.rows[d].serial ==> c == d)
    && (forall p :: p in s.redeemed ==> UsedUp(s.table, s.redeemed[p].marked))
    && (forall p, q :: p in s.redeemed && q in s.redeemed && s.redeemed[p].marked == s.redeemed[q].marked ==> p == q)
    && (forall p :: p in s.claims ==> s.claims[p].row.expiresAt > s.claims[p].at && !s.claims[p].row.used)
    && (forall p :: p in s.redeemed ==> s.redeemed[p].claim.row.expiresAt > s.redeemed[p].claim.at && !s.redeemed[p].claim.row.used)
  }

  lemma UpdateKeepsInv(s: Sys, c: Caller)
    requires Inv(s) && c in s.claims
    ensures Inv(Step(s, Update(c)))
  {
    var s', claim := Step(s, Update(c)), s.claims[c];
    if s'.redeemed != s.redeemed {
      var serial := s.table.rows[claim.code].serial;
      forall p | p in s.redeemed
        ensures s.redeemed[p].marked != serial && UsedUp(s'.table, s.redeemed[p].marked)
      {
        assert UsedUp(s.table, s.redeemed[p].marked);
      }
      assert UsedUp(s'.table, serial);
    }
  }

  /** A step that marks nothing leaves used-up rows used up. */
  lemma StaysUsedUp(s: Sys, e: Event, serial: nat)
    requires Enabled(s, e) && !e.Update? && UsedUp(s.table, serial)
    ensures UsedUp(Step(s, e).table, serial)
  {
  }

  lemma StepKeepsInv(s: Sys, e: Event)
    requires Inv(s) && Enabled(s, e)
    ensures Inv(Step(s, e))
  {
    if e.Update? {
      UpdateKeepsInv(s, e.caller);
    } else {
      forall p | p in s.redeemed
        ensures UsedUp(Step(s, e).table, s.redeemed[p].marked)
      {
        StaysUsedUp(s, e, s.redeemed[p].marked);
      }
      hide UsedUp;
    }
  }

  lemma {:induction false} RunKeepsInv(s: Sys, es: seq<Event>)
    requires Inv(s) && Valid(s, es)
    ensures Inv(Run(s, es))
    decreases es
  {
    if es != [] {
      StepKeepsInv(s, es[0]);
      RunKeepsInv(Step(s, es[0]), es[1..]);
    }
  }

  // ----- how long a code can be redeemed -----

  function At(e: Event, default: int): int {
    match e
    case Delete(_, now) => now
    case Insert(_, _, now) => now
    case Select(_, _, now) => now
    case Update(_) => default
    case Purge(now) => now
  }

  /** Its owner mints another, or it is redeemed. */
  predicate Kills(s: Sys, e: Event, code: Code, owner: User) {
    (e.Delete? && e.user == owner) || (e.Update? && e.caller in s.claims && s.claims[e.caller].code == code)
  }

  predicate Mints(s: Sys, e: Event, code: Code) {
    e.Insert? && e.code == code && code !in s.table.rows
  }

  /** One statement: a code minted is good for 600 seconds; only its owner's next mint and its redemption end it before. */
  lemma StepRedeems(s: Sys, e: Event, code: Code, later: int)
    requires Enabled(s, e) && At(e, later) <= later
    ensures var t, t' := s.table, Step(s, e).table;
      && (Mints(s, e, code) ==> (Redeemable(t', code, later) <==> later < e.now + 600) && t'.rows[code].user == e.user)
      && (!Mints(s, e, code) ==>
            (Redeemable(t', code, later) <==> Redeemable(t, code, later) && !Kills(s, e, code, t.rows[code].user)))
      && (!Mints(s, e, code) && code in t'.rows ==> code in t.rows && t'.rows[code].user == t.rows[code].user)
  {
  }

  /** Somewhere in the run the code's owner mints another or the code is redeemed. */
  predicate Killed(s: Sys, es: seq<Event>, code: Code, owner: User)
    requires Valid(s, es)
    decreases es
  {
    es != [] && (Kills(s, es[0], code, owner) || Killed(Step(s, es[0]), es[1..], code, owner))
  }

  ghost predicate AllBy(es: seq<Event>, later: int) {
    forall e :: e in es ==> At(e, later) <= later
  }

  /**
   Whatever is interleaved, a code minted at a moment can be redeemed until exactly 600 seconds
   after it, unless its owner has minted another or it has been redeemed: other users' codes,
   refused insertions, other redemptions and purges change nothing.
   */
  lemma RedeemableIff(s: Sys, code: Code, owner: User, now: int, es: seq<Event>, later: int)
    requires code !in s.table.rows && now <= later && AllBy(es, later)
    requires var s1 := Step(s, Insert(code, owner, now)); Valid(s1, es) && !Reminted(s1, es, code)
    ensures var s1 := Step(s, Insert(code, owner, now));
      Redeemable(Run(s1, es).table, code, later) <==> later < now + 600 && !Killed(s1, es, code, owner)
  {
    StepRedeems(s, Insert(code, owner, now), code, later);
    StaysRedeemable(Step(s, Insert(code, owner, now)), es, code, owner, later);
  }

  lemma {:induction false} StaysRedeemable(s: Sys, es: seq<Event>, code: Code, owner: User, later: int)
    requires Valid(s, es) && !Reminted(s, es, code) && AllBy(es, later)
    requires code in s.table.rows ==> s.table.rows[code].user == owner
    ensures Redeemable(Run(s, es).table, code, later) <==> Redeemable(s.table, code, later) && !Killed(s, es, code, owner)
    decreases es
  {
    if es != [] {
      assert es[0] in es && forall e :: e in es[1..] ==> e in es;
      StepRedeems(s, es[0], code, later);
      hide Step, Redeemable, At;
      StaysRedeemable(Step(s, es[0]), es[1..], code, owner, later);
    }
  }

  // ----- single use -----

  /** No minted row is ever marked for two callers, and no caller redeems what was used or expired when it looked. */
  lemma CodesAreSingleUse(es: seq<Event>, p: Caller, q: Caller)
    requires Valid(EMPTY, es) && p in Run(EMPTY, es).redeemed && q in Run(EMPTY, es).redeemed
    ensures var r := Run(EMPTY, es).redeemed;
      && (r[p].marked == r[q].marked ==> p == q)
      && r[p].claim.row.expiresAt > r[p].claim.at && !r[p].claim.row.used
  {
    RunKeepsInv(EMPTY, es);
  }

  // ----- whose row a caller is told about -----

  /** The code is inserted anew during the run. */
  predicate Reminted(s: Sys, es: seq<Event>, code: Code)
    requires Valid(s, es)
    decreases es
  {
    es != [] && ((es[0].Insert? && es[0].code == code && code !in s.table.rows) || Reminted(Step(s, es[0]), es[1..], code))
  }

  /** From a claim to its UPDATE, the row under the code is the claimed one exactly if the code was not minted again. */
  lemma {:induction false} RowIsClaimedUnlessReminted(s: Sys, es: seq<Event>, code: Code, serial: nat)
    requires Inv(s) && Valid(s, es) && serial < s.table.minted
    requires code in Run(s, es).table.rows
    requires code in s.table.rows ==> s.table.rows[code].serial == serial
    ensures Run(s, es).table.rows[code].serial == serial <==> !Reminted(s, es, code)
    decreases es
  {
    if es != [] {
      var s' := Step(s, es[0]);
      StepKeepsInv(s, es[0]);
      if es[0].Insert? && es[0].code == code && code !in s.table.rows {
        NewRowsAreNewer(s', es[1..], code, serial + 1);
      } else {
        RowIsClaimedUnlessReminted(s', es[1..], code, serial);
      }
    }
  }

  lemma {:induction false} NewRowsAreNewer(s: Sys, es: seq<Event>, code: Code, bound: nat)
    requires Inv(s) && Valid(s, es) && bound <= s.table.minted
    requires code in s.table.rows ==> s.table.rows[code].serial >= bound
    ensures code in Run(s, es).table.rows ==> Run(s, es).table.rows[code].serial >= bound
    decreases es
  {
    if es != [] {
      StepKeepsInv(s, es[0]);
      NewRowsAreNewer(Step(s, es[0]), es[1..], code, bound);
    }
  }

  /** A successful redemption marks the row its caller was told about exactly if the code was not minted again in between. */
  lemma RedeemsWhatItSaw(s: Sys, caller: Caller, code: Code, now: int, es: seq<Event>)
    requires Inv(s) && Enabled(s, Select(caller, code, now)) && Redeemable(s.table, code, now)
    requires Valid(Step(s, Select(caller, code, now)), es)
    requires var s' := Run(Step(s, Select(caller, code, now)), es);
      caller in s'.claims && s'.claims[caller] == Claim(code, s.table.rows[code], now)
      && code in s'.table.rows && !s'.table.rows[code].used
    ensures var s1 := Step(s, Select(caller, code, now));
      var r := Step(Run(s1, es), Update(caller)).redeemed;
      caller in r && (r[caller].marked == r[caller].claim.row.serial <==> !Reminted(s1, es, code))
  {
    StepKeepsInv(s, Select(caller, code, now));
    RowIsClaimedUnlessReminted(Step(s, Select(caller, code, now)), es, code, s.table.rows[code].serial);
  }

  /** Two callers that each marked the row they saw were told about different rows. */
  lemma HonestRedemptionsDiffer(es: seq<Event>, p: Caller, q: Caller)
    requires Valid(EMPTY, es) && p in Run(EMPTY, es).redeemed && q in Run(EMPTY, es).redeemed && p != q
    requires var r := Run(EMPTY, es).redeemed;
      r[p].marked == r[p].claim.row.serial && r[q].marked == r[q].claim.row.serial
    ensures Run(EMPTY, es).redeemed[p].claim.row.serial != Run(EMPTY, es).redeemed[q].claim.row.serial
  {
    RunKeepsInv(EMPTY, es);
  }

  /**
   But one row's owner can be told to two callers: both select it, one redeems it, it expires and
   is purged, the same six digits are minted again, and the slow caller's UPDATE hits the new row.
   */
  function ReuseRun(code: Code, first: User, second: User): seq<Event> {
    [Insert(code, first, 0), Select(1, code, 1), Select(2, code, 1), Update(1),
     Purge(PAIRING_TTL + 1), Insert(code, second, PAIRING_TTL + 1), Update(2)]
  }

  lemma RunOne(s: Sys, es: seq<Event>)
    requires es != [] && Enabled(s, es[0]) && Valid(Step(s, es[0]), es[1..])
    ensures Valid(s, es) && Run(s, es) == Run(Step(s, es[0]), es[1..])
  {
  }

  lemma OneRowToldTwice(code: Code, first: User, second: User)
    ensures Valid(EMPTY, ReuseRun(code, first, second))
    ensures var r := Run(EMPTY, ReuseRun(code, first, second)).redeemed;
      1 in r && 2 in r && r[1].claim.row.serial == r[2].claim.row.serial == 0 && r[1].marked != r[2].marked
  {
    var es := ReuseRun(code, first, second);
    var s1 := Step(EMPTY, es[0]);
    var s2 := Step(s1, es[1]);
    var s3 := Step(s2, es[2]);
    var s4 := Step(s3, es[3]);
    var s5 := Step(s4, es[4]);
    assert code !in s5.table.rows && s5.table.minted == 1;
    var s6 := Step(s5, es[5]);
    var s7 := Step(s6, es[6]);
    assert es[6..][1..] == [] && Run(s7, []) == s7;
    RunOne(s6, es[6..]);
    assert es[5..][1..] == es[6..]; RunOne(s5, es[5..]);
    assert es[4..][1..] == es[5..]; RunOne(s4, es[4..]);
    assert es[3..][1..] == es[4..]; RunOne(s3, es[3..]);
    assert es[2..][1..] == es[3..]; RunOne(s2, es[2..]);
    assert es[1..][1..] == es[2..]; RunOne(s1, es[1..]);
    assert es[0..] == es;
    RunOne(EMPTY, es);
  }
}
