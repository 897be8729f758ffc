/** The member package's AuthServiceImpl: the same signup as
    MemberServiceImpl, and the e-mail code pair of the session manager,
    except that a mail failure is not caught and surfaces as an unexpected
    error. Registered e-mails are those of the member tables. */
module MemberAuth {
  import opened Wrappers
  import opened Strings
  import opened Errors
  import opened Redis
  import opened SessionSpec
  import opened SignupTerms
  import opened SignupRequest
  import opened MemberTables
  import MemberSpec
  import Members

  /** The two sendEmailCode implementations agree whenever the mail goes
      out, the member directory of the tables standing for the session
      manager's member lookup; when it does not, one reports
      AUTH_EMAIL_SEND_FAILED and the other an unexpected error. */
  lemma SendEmailCodeMatchesSessionManager(s: Snapshot, t: Tables, email: string, draw: nat, deliver: Mail -> bool)
    requires ValidTables(t)
    ensures SavedMembers(t.members, t.nextMemberId)
    ensures deliver(ComposeMail(email, NatToString(GenerateCode(draw)))) ==>
      MemberSpec.SendEmailCode(s, t, email, draw, deliver)
      == SessionSpec.SendEmailCode(s, MemberSpec.Directory(t.members), email, draw, deliver)
    ensures !EmailTaken(t, email) && !deliver(ComposeMail(email, NatToString(GenerateCode(draw)))) ==>
      MemberSpec.SendEmailCode(s, t, email, draw, deliver).result == Err(Unexpected)
      && SessionSpec.SendEmailCode(s, MemberSpec.Directory(t.members), email, draw, deliver).result
         == Err(AuthFailure(AuthEmailSendFailed))
  {
    MemberSpec.DirectoryLookup(t.members);
  }

  /** Once an e-mail has signed up, no code is sent to it any more. */
  lemma NoCodeAfterSignup(s: Snapshot, t: Tables, encode: string -> string, member: MemberForm, terms: TermsForm,
                          draw: nat, deliver: Mail -> bool)
    requires MemberSpec.Signup(t, encode, member, terms).result.Ok?
    ensures var u := MemberSpec.Signup(t, encode, member, terms).tables;
      MemberSpec.SendEmailCode(s, u, member.email, draw, deliver) == Outcome(Err(AuthFailure(AuthEmailAlreadyExists)), s)
  {
    var u := MemberSpec.Signup(t, encode, member, terms).tables;
    assert u.members[|t.members|].email == member.email;
  }

  /** The member package's AuthServiceImpl over the member tables, the
      shared Redis store and the password encoder. */
  class MemberAuthService {
    const db: MemberDb
    const kv: RedisKv
    const encode: string -> string

    ghost predicate Valid()
      reads this, db, kv
    {
      db.Valid() && kv.Valid()
    }

    constructor (db: MemberDb, kv: RedisKv, encode: string -> string)
      requires db.Valid() && kv.Valid()
      ensures Valid() && this.db == db && this.kv == kv && this.encode == encode
    {
      this.db := db;
      this.kv := kv;
      this.encode := encode;
    }

    /** signup */
    method Signup(member: MemberForm, terms: TermsForm) returns (r: Result<int, Failure>)
      requires Valid()
      modifies db
      ensures Valid()
      ensures MemberSpec.SignupOutcome(r, db.Snapshot()) == MemberSpec.Signup(old(db.Snapshot()), encode, member, terms)
    {
      r := Members.SignupTransaction(db, encode, member, terms);
    }

    /** sendEmailCode; `draw` is the random number generateCode draws and
        `deliver` the mail server's answer. */
    method SendEmailCode(email: string, draw: nat, deliver: Mail -> bool) returns (r: Result<string, Failure>)
      requires Valid()
      modifies kv
      ensures Valid() && kv.Steady()
      ensures Outcome(r, kv.State()) == MemberSpec.SendEmailCode(old(kv.State()), db.Snapshot(), email, draw, deliver)
    {
      if EmailTaken(db.Snapshot(), email) {
        return Err(AuthFailure(AuthEmailAlreadyExists));
      }
      var code := NatToString(GenerateCode(draw));
      if !deliver(ComposeMail(email, code)) {
        return Err(Unexpected);
      }
      var written := kv.Set(EmailCodeKey(email), code, EMAIL_CODE_TTL_MS);
      if written.Err? {
        return Err(StoreFailure);
      }
      r := Ok(code);
    }

    /** verifyEmailCode: the session manager's, step for step. */
    method VerifyEmailCode(email: string, code: string) returns (r: Result<(), Failure>)
      requires Valid()
      modifies kv
      ensures Valid() && kv.Steady()
      ensures Outcome(r, kv.State()) == SessionSpec.VerifyEmailCode(old(kv.State()), email, code)
    {
      var key := EmailCodeKey(email);
      var savedCode := kv.Get(key);
      if savedCode.Err? {
        return Err(StoreFailure);
      }
      if savedCode.value.None? {
        return Err(AuthFailure(AuthCodeExpired));
      }
      if savedCode.value.value != code {
        return Err(AuthFailure(AuthCodeMismatch));
      }
      var deleted := kv.Delete(key);
      r := Ok(());
    }
  }
}
