/** The ceremony services and views as they update sessions and rows in place; each is proved
    to take exactly the step that module Ceremonies specifies. */
module CeremonyService {
  import opened Wrappers
  import opened Base64Url
  import opened Ceremonies
  import E = Enrollment

  class Server {
    const env: Env
    var challenges: map<Slot, string>
    var enrolling: map<Id, Id>
    var active: map<Id, bool>
    var creds: map<Bytes, Credential>
    var tokens: seq<E.Token>
    ghost var issued: set<Bytes>
    ghost var accepted: seq<Assertion>

    ghost function State(): Db
      reads this
    {
      Db(challenges, enrolling, active, creds, tokens, issued, accepted)
    }

    /** With sound verifiers: stored challenges are issued and single, accepted ones are gone. */
    ghost predicate Valid()
      reads this
    {
      ChecksChallenge(env) && Inv(State())
    }

    constructor (env: Env, users: map<Id, bool>)
      ensures State() == EMPTY.(active := users) && this.env == env && (ChecksChallenge(env) ==> Valid())
    {
      this.env := env;
      challenges, enrolling, active, creds, tokens := map[], map[], users, map[], [];
      issued, accepted := {}, [];
    }

    method StartAuthentication(session: Id, challenge: Bytes)
      requires Valid()
      modifies this
      ensures challenge !in old(issued) ==> Valid()
      ensures State() == StartAuth(old(State()), session, challenge)
    {
      if challenge !in issued { StepKeeps(State(), StartAuthOp(session, challenge), env); }
      challenges := challenges[Slot(session, false) := Encode(challenge)];
      issued := issued + {challenge};
    }

    /** The session is saved, without its challenge, unless the request crashes. */
    method FinishAuthentication(session: Id, a: Assertion) returns (o: Outcome)
      requires Valid()
      modifies this
      ensures Valid()
      ensures (State(), o) == FinishAuth(old(State()), session, a, env)
    {
      FinishAuthKeeps(State(), session, a, env);
      var slot := Slot(session, false);
      var saved := challenges - {slot};
      if slot !in challenges || challenges[slot] == "" {
        challenges := saved;
        return Refused;
      }
      var challenge := Decode(challenges[slot]);
      if challenge.None? || a.id.None? {
        return Crashed;
      }
      var id := Decode(a.id.value);
      if id.None? {
        return Crashed;
      }
      challenges := saved;
      if id.value !in creds {
        return Refused;
      }
      var cred := creds[id.value];
      if cred.user !in active || !active[cred.user] {
        return Refused;
      }
      if a.userHandle.None? || a.userHandle.value == "" {
        return Refused;
      }
      var handle := Decode(a.userHandle.value);
      if handle != Some(env.userText(cred.user)) {
        return Refused;
      }
      var verified := env.verifyAssertion(a, challenge.value, cred.publicKey, cred.signCount);
      if verified.None? {
        return Refused;
      }
      if cred.signCount > 0 && verified.value <= cred.signCount {
        return Refused;
      }
      creds := creds[id.value := cred.(signCount := verified.value)];
      accepted := accepted + [a];
      o := Accepted(cred.user);
    }

    method RegistrationStart(session: Id, raw: string, challenge: Bytes, now: int) returns (o: Outcome)
      requires Valid()
      modifies this
      ensures challenge !in old(issued) ==> Valid()
      ensures (State(), o) == StartReg(old(State()), session, raw, challenge, now, env)
    {
      if challenge !in issued { StepKeeps(State(), StartRegOp(session, raw, challenge, now), env); }
      var token := E.LookupActiveToken(tokens, raw, now, env.verifyToken);
      if token.None? {
        return Refused;
      }
      challenges := challenges[Slot(session, true) := Encode(challenge)];
      enrolling := enrolling[session := tokens[token.value].user];
      issued := issued + {challenge};
      o := Started;
    }

    method FinishRegistration(session: Id, a: Assertion) returns (o: Outcome)
      modifies this
      ensures (State(), o) == FinishKey(old(State()), session, a, env)
    {
      var slot := Slot(session, true);
      var (saved, left) := (challenges - {slot}, enrolling - {session});
      if slot !in challenges || challenges[slot] == "" || session !in enrolling {
        challenges, enrolling := saved, left;
        return Refused;
      }
      var user, stored := enrolling[session], challenges[slot];
      if user !in active {
        challenges, enrolling := saved, left;
        return Refused;
      }
      var challenge := Decode(stored);
      if challenge.None? {
        return Crashed;
      }
      var verified := env.verifyAttestation(a, challenge.value);
      if verified.None? {
        challenges, enrolling := saved, left;
        return Refused;
      }
      var k := verified.value;
      if k.id in creds {
        return Crashed;
      }
      challenges, enrolling := saved, left;
      creds := creds[k.id := Credential(user, k.publicKey, k.signCount)];
      accepted := accepted + [a];
      o := Accepted(user);
    }

    method RegistrationFinish(session: Id, raw: string, a: Assertion, now: int) returns (o: Outcome)
      requires Valid()
      modifies this
      ensures Valid()
      ensures (State(), o) == FinishReg(old(State()), session, raw, a, now, env)
    {
      FinishRegKeeps(State(), session, raw, a, now, env);
      var token := E.LookupActiveToken(tokens, raw, now, env.verifyToken);
      if token.None? {
        return Refused;
      }
      o := FinishRegistration(session, a);
      if o.Accepted? {
        FinishKeyKeepsTokens(old(State()), session, a, env);
        tokens := E.MarkUsed(tokens, token.value, now);
      }
    }
  }

  lemma FinishKeyKeepsTokens(db: Db, session: Id, a: Assertion, env: Env)
    ensures FinishKey(db, session, a, env).0.tokens == db.tokens
  {}
}
