/** The claim code, the park record and the one decision `redeem` makes
    (edge/claim/vexa_claim.py). Pure: files and crashes are in `Spool`. */
module Claim {
  import opened Lines
  import opened Wrappers

  const CODE_LENGTH := 6
  const MAX_ATTEMPTS := 5

  // ---------------------------------------------------------------- codes

  /** The separators a human types: white space and the hyphen. */
  predicate IsSeparator(c: char) { IsSpace(c) || c == '-' }

  function Drop(dropped: char -> bool, raw: string): string {
    if raw == [] then []
    else (if dropped(raw[0]) then [] else [raw[0]]) + Drop(dropped, raw[1..])
  }

  function DropSeparators(raw: string): string { Drop(IsSeparator, raw) }

  predicate IsCode(code: string) {
    |code| == CODE_LENGTH && forall i | 0 <= i < |code| :: IsDigit(code[i])
  }

  /** `None` stands for the ClaimError. */
  function NormaliseCode(raw: string): Option<string> {
    var text := DropSeparators(raw);
    if IsCode(text) then Some(text) else None
  }

  function FormatCode(code: string): string {
    var half := |code| / 2;
    code[..half] + " " + code[half..]
  }

  function Digits(raw: string): nat {
    if raw == [] then 0 else (if '0' <= raw[0] <= '9' then 1 else 0) + Digits(raw[1..])
  }

  predicate SpokenChar(c: char) { '0' <= c <= '9' || IsSpace(c) || c == '-' }

  predicate AllAre(allowed: char -> bool, s: string) { forall i | 0 <= i < |s| :: allowed(s[i]) }

  lemma AllCons(allowed: char -> bool, c: char, rest: string)
    ensures AllAre(allowed, [c] + rest) <==> allowed(c) && AllAre(allowed, rest)
  {
    var s := [c] + rest;
    assert s[0] == c;
    assert forall i | 0 <= i < |rest| :: s[i + 1] == rest[i];
    if AllAre(allowed, s) {
      forall i | 0 <= i < |rest| ensures allowed(rest[i]) {
        assert allowed(s[i + 1]);
      }
    }
  }

  lemma {:induction false} DropLeavesDigits(raw: string)
    ensures AllAre(SpokenChar, raw) <==> AllAre(IsDigit, DropSeparators(raw))
    ensures AllAre(SpokenChar, raw) ==> |DropSeparators(raw)| == Digits(raw)
  {
    if raw != [] {
      var c, rest := raw[0], raw[1..];
      DropLeavesDigits(rest);
      assert raw == [c] + rest;
      AllCons(SpokenChar, c, rest);
      AllCons(IsDigit, c, DropSeparators(rest));
      assert [] + DropSeparators(rest) == DropSeparators(rest);
    }
  }

  /** A code is accepted exactly when it is six digits, white space and hyphens aside. */
  lemma NormaliseCodeIff(raw: string)
    ensures NormaliseCode(raw).Some? <==>
      && Digits(raw) == 6
      && forall i | 0 <= i < |raw| :: '0' <= raw[i] <= '9' || IsSpace(raw[i]) || raw[i] == '-'
  {
    DropLeavesDigits(raw);
    assert AllAre(SpokenChar, raw) <==> forall i | 0 <= i < |raw| :: SpokenChar(raw[i]);
    assert IsCode(DropSeparators(raw)) <==> |DropSeparators(raw)| == 6 && AllAre(IsDigit, DropSeparators(raw));
  }

  lemma {:induction false} DropConcat(dropped: char -> bool, a: string, b: string)
    ensures Drop(dropped, a + b) == Drop(dropped, a) + Drop(dropped, b)
  {
    if a == [] {
      assert a + b == b;
    } else {
      assert (a + b)[1..] == a[1..] + b;
      DropConcat(dropped, a[1..], b);
    }
  }

  lemma {:induction false} DropNothing(dropped: char -> bool, s: string)
    requires forall i | 0 <= i < |s| :: !dropped(s[i])
    ensures Drop(dropped, s) == s
  {
    if s != [] {
      DropNothing(dropped, s[1..]);
    }
  }

  lemma DropBetween(dropped: char -> bool, before: string, left: string, between: string, right: string, after: string)
    requires Drop(dropped, before) == Drop(dropped, between) == Drop(dropped, after) == []
    requires Drop(dropped, left) == left && Drop(dropped, right) == right
    ensures Drop(dropped, before + left + between + right + after) == left + right
  {
    var one := before + left;
    DropConcat(dropped, before, left);
    assert Drop(dropped, one) == left;
    var two := one + between;
    DropConcat(dropped, one, between);
    assert Drop(dropped, two) == left;
    var three := two + right;
    DropConcat(dropped, two, right);
    DropConcat(dropped, three, after);
  }

  lemma DigitsStay(code: string)
    requires IsCode(code)
    ensures DropSeparators(code[..3]) == code[..3] && DropSeparators(code[3..]) == code[3..]
  {
    forall i | 0 <= i < 6 ensures !IsSeparator(code[i]) {
      assert IsDigit(code[i]);
    }
    DropNothing(IsSeparator, code[..3]);
    DropNothing(IsSeparator, code[3..]);
  }

  /** What is printed for the phone call reads back as the code, whatever
      separators the listener adds around and between the two halves. */
  lemma SpokenCodeReadsBack(code: string, before: string, between: string, after: string)
    requires IsCode(code)
    requires DropSeparators(before) == DropSeparators(between) == DropSeparators(after) == []
    ensures NormaliseCode(FormatCode(code)) == Some(code)
    ensures NormaliseCode(before + code[..3] + between + code[3..] + after) == Some(code)
  {
    DigitsStay(code);
    assert DropSeparators(" ") == [];
    DropBetween(IsSeparator, "", code[..3], " ", code[3..], "");
    assert "" + code[..3] + " " + code[3..] + "" == FormatCode(code);
    DropBetween(IsSeparator, before, code[..3], between, code[3..], after);
    assert code == code[..3] + code[3..];
  }

  // ---------------------------------------------------------------- parks

  /** The hex text of a UUID, by number. */
  type ParkId = nat

  /** An ideal salted SHA-256: equal digests mean equal salt and equal code. */
  datatype Digest = Digest(salt: string, code: string)

  datatype Credential = Credential(username: string, password: string)

  /** `sealed` is what the age envelope opens to; times are microseconds. */
  datatype Park = Park(id: ParkId, station: string, salt: string, digest: Digest,
                       expiresAt: int, maxAttempts: Option<int>, sealed: Credential)

  const SECOND := 1_000_000

  /** `stamp` keeps whole seconds only. */
  function Stamp(when: int): (s: int)
    ensures s <= when < s + SECOND && s % SECOND == 0
  {
    when - when % SECOND
  }

  function BuildPark(id: ParkId, station: string, salt: string, code: string, armored: bool,
                     now: int, ttlSeconds: int, maxAttempts: int, sealed: Credential): Option<Park> {
    if !armored then None
    else match NormaliseCode(code)
      case None => None
      case Some(text) =>
        Some(Park(id, station, salt, Digest(salt, text), Stamp(now + ttlSeconds * SECOND),
                  Some(maxAttempts), sealed))
  }

  /** A park is refused for an unarmored credential or a code that is none, and
      otherwise records what it was given: it expires on the last whole second within
      its lifetime. */
  lemma BuiltParkRecords(id: ParkId, station: string, salt: string, code: string, armored: bool,
                         now: int, ttl: int, maxAttempts: int, sealed: Credential)
    ensures var park := BuildPark(id, station, salt, code, armored, now, ttl, maxAttempts, sealed);
      && (park.Some? <==> armored && NormaliseCode(code).Some?)
      && (park.Some? ==>
            && park.value.id == id && park.value.station == station && park.value.salt == salt
            && park.value.sealed == sealed && park.value.maxAttempts == Some(maxAttempts)
            && now + ttl * SECOND - SECOND < park.value.expiresAt <= now + ttl * SECOND
            && park.value.expiresAt % SECOND == 0)
  {
  }

  /** What the caller sent as `code`: JSON text, or some other JSON value. */
  datatype Offer = Text(text: string) | NotText

  /** A code that cannot be a code takes the same branch as a wrong one. */
  predicate Matches(park: Park, offer: Offer) {
    && offer.Text?
    && var code := NormaliseCode(offer.text);
       code.Some? && Digest(park.salt, code.value) == park.digest
  }

  /** A built park opens for exactly the codes that normalise to the code it was
      built with, whatever the salt. */
  lemma BuiltParkMatches(id: ParkId, station: string, salt: string, code: string, now: int, ttl: int,
                         maxAttempts: int, sealed: Credential, offer: Offer)
    requires NormaliseCode(code).Some?
    ensures var park := BuildPark(id, station, salt, code, true, now, ttl, maxAttempts, sealed);
            park.Some? &&
            park.value.expiresAt <= now + ttl * SECOND &&
            (Matches(park.value, offer) <==> offer.Text? && NormaliseCode(offer.text) == NormaliseCode(code))
  {
  }

  // ---------------------------------------------------------------- state

  datatype Status = Live | Redeemed | Burned | Expired

  datatype State = State(id: ParkId, station: string, digest: Digest, expiresAt: int,
                         maxAttempts: int, status: Status, attempts: int)

  function MaxAttempts(park: Park): int {
    if park.maxAttempts.Some? then park.maxAttempts.value else MAX_ATTEMPTS
  }

  function NewState(park: Park): State {
    State(park.id, park.station, park.digest, park.expiresAt, MaxAttempts(park), Live, 0)
  }

  datatype Refusal = NoPark | WrongCode | TooLate | BurnedOut | Spent
                   | Malformed | RateLimited | ParkRateLimited

  datatype Reply = Served(credential: Credential) | Refused(reason: Refusal) | Unavailable

  /** What `redeem` does once it holds the park and its state: answer at once, or
      write a new state first and, when that is terminal, delete the park file. */
  datatype Decision = Answer(reply: Reply) | Write(state: State, reply: Reply)

  /** `opens` is whether the age envelope decrypts. Expiry is judged before the
      code and decryption before the terminal write. */
  function Decide(park: Park, state: State, offer: Offer, now: int, opens: bool): Decision {
    if state.status != Live then Answer(Refused(Spent))
    else if now >= park.expiresAt then Write(state.(status := Expired), Refused(TooLate))
    else if park.salt == "" then Answer(Unavailable)
    else if !Matches(park, offer) then
      var counted := state.(attempts := state.attempts + 1);
      if counted.attempts >= counted.maxAttempts then Write(counted.(status := Burned), Refused(BurnedOut))
      else Write(counted, Refused(WrongCode))
    else if !opens then Answer(Unavailable)
    else Write(state.(status := Redeemed), Served(park.sealed))
  }

  /** Who is served; what a late caller pays, even with the right code; and that a fault of ours spends nothing. */
  lemma DecidePolicy(park: Park, state: State, offer: Offer, now: int, opens: bool)
    ensures var d := Decide(park, state, offer, now, opens);
      var live := state.status == Live;
      var inTime, right := live && now < park.expiresAt && park.salt != "", Matches(park, offer);
      && (!live ==> d == Answer(Refused(Spent)))
      && (d.reply.Served? <==> inTime && right && opens)
      && (d.reply.Served? ==> d == Write(state.(status := Redeemed), Served(park.sealed)))
      && (live && now >= park.expiresAt ==> d == Write(state.(status := Expired), Refused(TooLate)))
      && (d.reply == Unavailable <==> live && now < park.expiresAt && (park.salt == "" || (right && !opens)))
      && (d.reply == Unavailable ==> d.Answer?)
      && (inTime && !right ==>
            d == if state.attempts + 1 >= state.maxAttempts
                 then Write(state.(attempts := state.attempts + 1, status := Burned), Refused(BurnedOut))
                 else Write(state.(attempts := state.attempts + 1), Refused(WrongCode)))
  {
  }

  /** No oracle: offers that do not match are answered and charged alike, however malformed. */
  lemma WrongOffersLookAlike(park: Park, state: State, one: Offer, two: Offer, now: int, opens: bool, opens2: bool)
    requires !Matches(park, one) && !Matches(park, two)
    ensures Decide(park, state, one, now, opens) == Decide(park, state, two, now, opens2)
  {
  }
}
