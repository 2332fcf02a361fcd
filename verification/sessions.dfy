/** The session table. Instants are stored and compared as text. */
module Sessions {
  import opened Options
  import opened Strings
  import opened Timestamps

  /** How SQL decides `expires_at > now`: by the order of the two texts. */
  predicate Honoured(expires: nat, now: nat) {
    StrLess(Format(now), Format(expires))
  }

  /** Exactly when a session counts as unexpired. */
  lemma HonouredExactly(expires: nat, now: nat)
    requires InRange(expires) && InRange(now)
    ensures Honoured(expires, now) <==>
            (Second(now) < Second(expires)) ||
            (Second(now) == Second(expires) && now < expires && !(FractionDigits(now) <= FractionDigits(expires))) ||
            (Second(now) == Second(expires) && expires < now && FractionDigits(expires) <= FractionDigits(now))
  {
    hide InRange, Format, FractionDigits, StrLess;
    if Second(now) < Second(expires) {
      SecondsSort(now, expires);
    } else if Second(expires) < Second(now) {
      SecondsSort(expires, now);
      LessOneWay(Format(expires), Format(now));
    } else if now < expires {
      FractionsSort(now, expires);
    } else if expires < now {
      FractionsSort(expires, now);
    } else {
      LessOneWay(Format(now), Format(expires));
    }
  }

  lemma LessOneWay(a: string, b: string)
    ensures StrLess(a, b) ==> a != b && !StrLess(b, a)
  {
    StrLeqTotal(a, b);
  }

  lemma LeqOrLess(a: string, b: string)
    ensures StrLeq(a, b) <==> !StrLess(b, a)
  {
    StrLeqTotal(a, b);
  }

  /** A session is never honoured a full second after it expired and never refused a full second
      before. */
  lemma WithinOneSecond(expires: nat, now: nat)
    requires InRange(expires) && InRange(now)
    ensures now >= expires + NANOS ==> !Honoured(expires, now)
    ensures now + NANOS <= expires ==> Honoured(expires, now)
  {
    hide InRange, Format, FractionDigits, StrLess, Honoured;
    HonouredExactly(expires, now);
  }

  /** Inside one second the text order is wrong both ways: a session that expires on a whole second is
      honoured throughout that second, and on a whole second every session that still has a part of it
      left is refused. */
  lemma FractionsDoNotSort(whole: nat, later: nat)
    requires InRange(whole) && whole % NANOS == 0 && whole < later < whole + NANOS
    ensures Honoured(whole, later) && !Honoured(later, whole)
  {
    assert Second(later) == Second(whole);
    assert InRange(later);
    WholeSecondHasNoDigits(whole);
    hide InRange, Format, FractionDigits, StrLess, Honoured;
    HonouredExactly(whole, later);
    HonouredExactly(later, whole);
  }

  lemma WholeSecondHasNoDigits(t: nat)
    requires t % NANOS == 0
    ensures FractionDigits(t) == ""
  {
    ZerosOnly(9);
  }

  lemma {:induction false} ZerosOnly(w: nat)
    ensures forall i :: 0 <= i < w ==> Pad(0, w)[i] == '0'
  {
    if w > 0 {
      ZerosOnly(w - 1);
    }
  }

  // ----- the table ------------------------------------------------------------------------

  datatype Session = Session(user: int, csrf: string, expiresAt: string)

  class Store {
    var users: map<int, string>
    /** Sessions by token hash, which is unique. */
    var sessions: map<string, Session>
    /** The instants behind the stored texts. */
    ghost var expiry: map<string, nat>

    ghost predicate Valid()
      reads this
    {
      && sessions.Keys == expiry.Keys
      && forall hash :: hash in sessions ==>
                          && InRange(expiry[hash]) && sessions[hash].expiresAt == Format(expiry[hash])
                          && sessions[hash].user in users
    }

    constructor (users: map<int, string>)
      ensures Valid() && this.users == users && sessions == map[]
    {
      this.users, sessions, expiry := users, map[], map[];
    }

    /** Deletes what has expired and inserts the new session; an unknown user or a token hash already in
        the table rolls everything back. */
    method CreateSession(user: int, hash: string, csrf: string, expires: nat, now: nat) returns (ok: bool)
      requires Valid() && InRange(expires) && InRange(now)
      modifies this`sessions, this`expiry
      ensures Valid()
      ensures ok <==> user in users && !(hash in old(sessions) && Honoured(old(expiry)[hash], now))
      ensures !ok ==> sessions == old(sessions) && expiry == old(expiry)
      ensures ok ==>
                  hash in sessions && sessions[hash] == Session(user, csrf, Format(expires)) && expiry[hash] == expires
      ensures ok ==> forall h :: h != hash ==> (h in sessions <==> h in old(sessions) && Honoured(old(expiry)[h], now))
      ensures ok ==>
                  forall h :: h != hash && h in sessions ==>
                                sessions[h] == old(sessions)[h] && expiry[h] == old(expiry)[h]
    {
      hide Format, StrLess, StrLeq, InRange;
      var text := Format(now);
      forall h | h in sessions ensures StrLeq(sessions[h].expiresAt, text) <==> !Honoured(expiry[h], now) {
        LeqOrLess(sessions[h].expiresAt, text);
      }
      var expired := set h | h in sessions && StrLeq(sessions[h].expiresAt, text);
      var kept := sessions - expired;
      if user !in users || hash in kept {
        return false;
      }
      ghost var times := map h | h in kept :: expiry[h];
      sessions := kept[hash := Session(user, csrf, Format(expires))];
      expiry := times[hash := expires];
      ok := true;
    }

    method SessionByTokenHash(hash: string, now: nat) returns (r: Option<(Session, string)>)
      requires Valid() && InRange(now)
      ensures r.Some? <==> hash in sessions && Honoured(expiry[hash], now)
      ensures r.Some? ==> r.value == (sessions[hash], users[sessions[hash].user])
      ensures r.Some? ==> now < expiry[hash] + NANOS
      ensures r.None? && hash in sessions ==> now + NANOS > expiry[hash]
    {
      hide InRange, FractionDigits, Format, StrLess;
      if hash in sessions {
        WithinOneSecond(expiry[hash], now);
      }
      if hash in sessions && StrLess(Format(now), sessions[hash].expiresAt) && sessions[hash].user in users {
        r := Some((sessions[hash], users[sessions[hash].user]));
      } else {
        r := None;
      }
    }

    method DeleteSession(hash: string)
      requires Valid()
      modifies this`sessions, this`expiry
      ensures Valid() && sessions == old(sessions) - {hash} && expiry == old(expiry) - {hash}
    {
      hide Format, InRange;
      sessions := sessions - {hash};
      expiry := expiry - {hash};
    }
  }
}
