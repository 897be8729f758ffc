/** What signup and profile creation (MemberServiceImpl, and the member
    AuthServiceImpl's signup, which is the same code) do to the member
    tables, as functions from the tables as they were to the result and the
    tables afterwards. Both run in one transaction: a failure leaves every
    table as it was. */
module MemberSpec {
  import opened Wrappers
  import opened Errors
  import opened MemberEntities
  import opened SignupTerms
  import opened SignupRequest
  import opened MemberTables
  import SessionSpec
  import Redis
  import Strings

  /** The result of a signup and the tables it leaves behind. */
  datatype SignupOutcome = SignupOutcome(result: Result<int, Failure>, tables: Tables)

  /** Every kind of terms has a published version. */
  predicate AllTermsPublished(latestTerms: map<TermsType, Terms>) {
    forall k: TermsType :: k in latestTerms
  }

  // ---------------------------------------------------------------------
  // signup

  /** signup: refused for an e-mail that already has a member; otherwise
      the member is saved with the encoded password, the latest terms of
      every kind are looked up (one missing fails the whole transaction with
      TERMS_NOT_FOUND) and one consent row per set flag is saved. */
  function Signup(t: Tables, encode: string -> string, member: MemberForm, terms: TermsForm): (o: SignupOutcome)
    ensures EmailTaken(t, member.email) ==> o == SignupOutcome(Err(AuthFailure(AuthEmailAlreadyExists)), t)
    ensures !EmailTaken(t, member.email) && ToMemberEntity(member, encode(member.password)).Ok?
            && !AllTermsPublished(t.latestTerms)
            ==> o == SignupOutcome(Err(AuthFailure(TermsNotFound)), t)
    ensures o.result.Ok? <==>
      !EmailTaken(t, member.email) && ToMemberEntity(member, encode(member.password)).Ok? && AllTermsPublished(t.latestTerms)
    ensures o.result.Err? ==> o.tables == t
    ensures o.result.Ok? ==>
      var id := o.result.value;
      id == t.nextMemberId && o.tables.nextMemberId == id + 1
      && |o.tables.members| == |t.members| + 1 && o.tables.members[..|t.members|] == t.members
      && o.tables.members[|t.members|].memberId == Some(id)
      && o.tables.members[|t.members|].email == member.email
      && o.tables.members[|t.members|].password == encode(member.password)
      && o.tables.members[|t.members|] == ToMemberEntity(member, encode(member.password)).value.(memberId := Some(id))
      && |o.tables.memberTerms| == |t.memberTerms| + FlagCount(terms) && o.tables.memberTerms[..|t.memberTerms|] == t.memberTerms
      && ConsentRows(o.tables.memberTerms[|t.memberTerms|..], AgreedTypes(terms), id, t.latestTerms)
      && o.tables.latestTerms == t.latestTerms && o.tables.profiles == t.profiles
      && o.tables.interests == t.interests && o.tables.foods == t.foods && o.tables.days == t.days
      && o.tables.transportation == t.transportation && o.tables.dateMoods == t.dateMoods
      && o.tables.nextProfileId == t.nextProfileId
  {
    if EmailTaken(t, member.email) then SignupOutcome(Err(AuthFailure(AuthEmailAlreadyExists)), t)
    else match ToMemberEntity(member, encode(member.password))
      case Err(e) => SignupOutcome(Err(e), t)
      case Ok(m) =>
        if !AllTermsPublished(t.latestTerms) then SignupOutcome(Err(AuthFailure(TermsNotFound)), t)
        else
          var id := t.nextMemberId;
          var consents := ConsentRowsFor(AgreedTypes(terms), id, t.latestTerms);
          AgreedTypesCount(terms);
          assert (t.memberTerms + consents)[|t.memberTerms|..] == consents;
          SignupOutcome(Ok(id), t.(members := t.members + [m.(memberId := Some(id))], nextMemberId := id + 1,
                                   memberTerms := t.memberTerms + consents))
  }

  /** Appending a member under the next id, with an e-mail no saved member
      has, keeps the members saved. */
  lemma AppendMemberKeepsSaved(ms: seq<Member>, nextId: int, m: Member)
    requires SavedMembers(ms, nextId) && nextId >= 1 && m.memberId == Some(nextId)
    requires forall i :: 0 <= i < |ms| ==> ms[i].email != m.email
    ensures SavedMembers(ms + [m], nextId + 1)
  {
    var u := ms + [m];
    forall i | 0 <= i < |ms| ensures u[i] == ms[i] {
    }
  }

  /** Consent rows of saved members, followed by rows of a member appended
      to the members, all reference saved members. */
  lemma ConsentsReferenceMembers(ms: seq<Member>, m: Member, id: int, rows: seq<MemberTerms>, added: seq<MemberTerms>)
    requires forall i :: 0 <= i < |rows| ==> HasMemberId(ms, rows[i].memberId)
    requires m.memberId == Some(id)
    requires forall i :: 0 <= i < |added| ==> added[i].memberId == id
    ensures forall i :: 0 <= i < |rows + added| ==> HasMemberId(ms + [m], (rows + added)[i].memberId)
  {
    var u := ms + [m];
    forall i | 0 <= i < |rows + added| ensures HasMemberId(u, (rows + added)[i].memberId) {
      if i < |rows| {
        assert (rows + added)[i] == rows[i];
        var j :| 0 <= j < |ms| && ms[j].memberId == Some(rows[i].memberId);
        assert u[j] == ms[j];
      } else {
        assert (rows + added)[i] == added[i - |rows|];
        assert u[|ms|] == m;
      }
    }
  }

  /** Signup keeps the tables' integrity; in particular no two members ever
      share an e-mail. */
  lemma SignupKeepsTablesValid(t: Tables, encode: string -> string, member: MemberForm, terms: TermsForm)
    requires ValidTables(t)
    ensures ValidTables(Signup(t, encode, member, terms).tables)
  {
    var o := Signup(t, encode, member, terms);
    if o.result.Ok? {
      var id := o.result.value;
      var m := ToMemberEntity(member, encode(member.password)).value.(memberId := Some(id));
      var consents := ConsentRowsFor(AgreedTypes(terms), id, t.latestTerms);
      assert o.tables == t.(members := t.members + [m], nextMemberId := id + 1,
                            memberTerms := t.memberTerms + consents);
      forall i | 0 <= i < |t.members| ensures t.members[i].email != m.email {
        assert !(t.members[i].email == member.email);
      }
      AppendMemberKeepsSaved(t.members, id, m);
      ConsentsReferenceMembers(t.members, m, id, t.memberTerms, consents);
    }
  }

  /** After a signup the e-mail is taken: signing up again with it, whatever
      the rest of the request, is refused and changes nothing. */
  lemma SecondSignupRefused(t: Tables, encode: string -> string, member: MemberForm, terms: TermsForm,
                            again: MemberForm, againTerms: TermsForm)
    requires Signup(t, encode, member, terms).result.Ok?
    requires again.email == member.email
    ensures var u := Signup(t, encode, member, terms).tables;
      EmailTaken(u, member.email)
      && Signup(u, encode, again, againTerms) == SignupOutcome(Err(AuthFailure(AuthEmailAlreadyExists)), u)
  {
    var u := Signup(t, encode, member, terms).tables;
    assert u.members[|t.members|].email == member.email;
  }

  // ---------------------------------------------------------------------
  // the member package's sendEmailCode

  /** sendEmailCode: refused for an e-mail some member already has; the
      mail goes out (a delivery failure throws out of the service, an
      unexpected error, and nothing is stored); then the code is stored for
      five minutes and returned. */
  function SendEmailCode(s: Redis.Snapshot, t: Tables, email: string, draw: nat, deliver: SessionSpec.Mail -> bool): (o: SessionSpec.Outcome<string>)
    ensures EmailTaken(t, email) ==> o == SessionSpec.Outcome(Err(AuthFailure(AuthEmailAlreadyExists)), s)
    ensures !EmailTaken(t, email) && !deliver(SessionSpec.ComposeMail(email, Strings.NatToString(SessionSpec.GenerateCode(draw)))) ==>
      o == SessionSpec.Outcome(Err(Unexpected), s)
    ensures o.result.Err? ==> o.state == s
    ensures o.result.Ok? ==>
      |o.result.value| == 6 && (forall i :: 0 <= i < 6 ==> Strings.IsAsciiDigit(o.result.value[i]))
      && SessionSpec.Lookup(o.state, SessionSpec.EmailCodeKey(email)) == Some(o.result.value)
      && o.state.entries[SessionSpec.EmailCodeKey(email)].expiresAt == s.now + SessionSpec.EMAIL_CODE_TTL_MS
      && (forall k :: k != SessionSpec.EmailCodeKey(email) ==> SessionSpec.Lookup(o.state, k) == SessionSpec.Lookup(s, k))
    ensures o.state.now == s.now && o.state.available == s.available
  {
    if EmailTaken(t, email) then SessionSpec.Outcome(Err(AuthFailure(AuthEmailAlreadyExists)), s)
    else
      var code := Strings.NatToString(SessionSpec.GenerateCode(draw));
      Strings.SixDigits(SessionSpec.GenerateCode(draw));
      if !deliver(SessionSpec.ComposeMail(email, code)) then SessionSpec.Outcome(Err(Unexpected), s)
      else match SessionSpec.Write(s, SessionSpec.EmailCodeKey(email), code, SessionSpec.EMAIL_CODE_TTL_MS)
        case Err(f) => SessionSpec.Outcome(Err(f), s)
        case Ok(s1) => SessionSpec.Outcome(Ok(code), s1)
  }

  // ---------------------------------------------------------------------
  // the login directory

  /** MemberRepository.findByEmail as login sees it: the id and stored
      password of the member with each e-mail. */
  function Directory(ms: seq<Member>): map<string, SessionSpec.LoginMember>
    requires forall i :: 0 <= i < |ms| ==> ms[i].memberId.Some?
  {
    if ms == [] then map[]
    else
      var last := ms[|ms| - 1];
      Directory(ms[..|ms| - 1])[last.email := SessionSpec.LoginMember(last.memberId.value, last.password)]
  }

  /** The directory knows exactly the e-mails of saved members, and with
      unique e-mails it reports each member's own id and password. */
  lemma {:induction false} DirectoryLookup(ms: seq<Member>)
    requires forall i :: 0 <= i < |ms| ==> ms[i].memberId.Some?
    requires forall i, j :: 0 <= i < j < |ms| ==> ms[i].email != ms[j].email
    ensures forall email :: email in Directory(ms) <==> exists i :: 0 <= i < |ms| && ms[i].email == email
    ensures forall i :: 0 <= i < |ms| ==>
      ms[i].email in Directory(ms)
      && Directory(ms)[ms[i].email] == SessionSpec.LoginMember(ms[i].memberId.value, ms[i].password)
  {
    if ms != [] {
      var init := ms[..|ms| - 1];
      DirectoryLookup(init);
      forall email ensures email in Directory(ms) <==> exists i :: 0 <= i < |ms| && ms[i].email == email {
        if exists i :: 0 <= i < |init| && init[i].email == email {
          var i :| 0 <= i < |init| && init[i].email == email;
          assert ms[i].email == email;
        }
      }
      forall i | 0 <= i < |init| ensures init[i] == ms[i] {
      }
    }
  }

  /** Whoever signed up can log in: with an encoder whose output the
      password matcher accepts for the raw password, the new member's
      e-mail and password pass the session manager's login, which opens a
      session under the id signup returned. */
  lemma SignedUpMemberCanLogIn(t: Tables, encode: string -> string, member: MemberForm, terms: TermsForm,
                               matches: (string, string) -> bool, s: Redis.Snapshot,
                               deviceId: string, accessJti: string, refreshJti: string)
    requires ValidTables(t)
    requires Signup(t, encode, member, terms).result.Ok?
    requires matches(member.password, encode(member.password))
    requires s.available
    ensures var o := Signup(t, encode, member, terms);
      SavedMembers(o.tables.members, o.tables.nextMemberId)
      && var directory := Directory(o.tables.members);
      member.email in directory && directory[member.email].memberId == o.result.value
      && SessionSpec.Login(s, directory, matches, member.email, member.password, deviceId, accessJti, refreshJti).result.Ok?
  {
    var o := Signup(t, encode, member, terms);
    SignupKeepsTablesValid(t, encode, member, terms);
    DirectoryLookup(o.tables.members);
    assert o.tables.members[|t.members|].email == member.email;
  }

  // ---------------------------------------------------------------------
  // createProfile

  /** ReqCreateProfileDTO */
  datatype ProfileForm = ProfileForm(
    memberId: int,
    mbti: string,
    preferredLocation: string,
    preferredTime: string,
    budgetRange: string,
    relationshipStatus: string,
    preferredDays: seq<string>,
    dateMoods: seq<string>,
    interests: seq<string>,
    foodPreferences: seq<string>,
    transportation: seq<string>)

  /** One child row per value, in order, each referencing the profile. */
  function Items(values: seq<string>, profile: MemberProfile): (rows: seq<ProfileItem>)
    ensures |rows| == |values|
    ensures forall i :: 0 <= i < |rows| ==> rows[i] == ProfileItem(values[i], profile)
  {
    seq(|values|, i requires 0 <= i < |values| => ProfileItem(values[i], profile))
  }

  /** The profile row a request becomes once saved under `id`. */
  function ProfileRow(req: ProfileForm, id: int): MemberProfile {
    MemberProfile(id, req.memberId, req.mbti, req.preferredLocation, req.preferredTime, req.budgetRange,
                  req.relationshipStatus)
  }

  /** createProfile: the profile is saved, then each of the five lists
      becomes rows of its child table referencing the saved profile. */
  function CreateProfile(t: Tables, req: ProfileForm): (u: Tables)
    ensures u.profiles == t.profiles + [ProfileRow(req, t.nextProfileId)] && u.nextProfileId == t.nextProfileId + 1
    ensures u.members == t.members && u.latestTerms == t.latestTerms && u.memberTerms == t.memberTerms
    ensures u.nextMemberId == t.nextMemberId
    ensures |u.interests| == |t.interests| + |req.interests| && u.interests[..|t.interests|] == t.interests
    ensures |u.foods| == |t.foods| + |req.foodPreferences| && u.foods[..|t.foods|] == t.foods
    ensures |u.days| == |t.days| + |req.preferredDays| && u.days[..|t.days|] == t.days
    ensures |u.transportation| == |t.transportation| + |req.transportation|
            && u.transportation[..|t.transportation|] == t.transportation
    ensures |u.dateMoods| == |t.dateMoods| + |req.dateMoods| && u.dateMoods[..|t.dateMoods|] == t.dateMoods
  {
    var p := ProfileRow(req, t.nextProfileId);
    t.(profiles := t.profiles + [p], nextProfileId := t.nextProfileId + 1,
       interests := t.interests + Items(req.interests, p),
       foods := t.foods + Items(req.foodPreferences, p),
       days := t.days + Items(req.preferredDays, p),
       transportation := t.transportation + Items(req.transportation, p),
       dateMoods := t.dateMoods + Items(req.dateMoods, p))
  }

  /** The rows appended to a child table carry the request's values in
      their order, each referencing the new profile. */
  predicate AppendedFor(before: seq<ProfileItem>, after: seq<ProfileItem>, values: seq<string>, p: MemberProfile) {
    |after| == |before| + |values|
    && forall i :: 0 <= i < |values| ==> after[|before| + i] == ProfileItem(values[i], p)
  }

  /** Every list of the request lands in its own table, value by value and
      in order, under the profile just saved; an empty list adds nothing. */
  lemma CreateProfileRows(t: Tables, req: ProfileForm)
    ensures var u := CreateProfile(t, req);
      var p := u.profiles[|t.profiles|];
      p.memberProfileId == t.nextProfileId && p.memberId == req.memberId && p.mbti == req.mbti
      && p.preferredRegion == req.preferredLocation && p.preferredBudget == req.budgetRange
      && AppendedFor(t.interests, u.interests, req.interests, p)
      && AppendedFor(t.foods, u.foods, req.foodPreferences, p)
      && AppendedFor(t.days, u.days, req.preferredDays, p)
      && AppendedFor(t.transportation, u.transportation, req.transportation, p)
      && AppendedFor(t.dateMoods, u.dateMoods, req.dateMoods, p)
      && (req.interests == [] ==> u.interests == t.interests)
      && (req.dateMoods == [] ==> u.dateMoods == t.dateMoods)
  {
  }

  /** Profile creation keeps the tables' integrity: the new profile takes
      the next id and every new child row references it. */
  lemma CreateProfileKeepsTablesValid(t: Tables, req: ProfileForm)
    requires ValidTables(t)
    ensures ValidTables(CreateProfile(t, req))
  {
    var u := CreateProfile(t, req);
    var p := ProfileRow(req, t.nextProfileId);
    assert p in u.profiles;
    forall rows: seq<ProfileItem>, values: seq<string> | BelongToProfiles(rows, t.profiles)
      ensures BelongToProfiles(rows + Items(values, p), u.profiles)
    {
      forall i | 0 <= i < |rows + Items(values, p)| ensures (rows + Items(values, p))[i].memberProfile in u.profiles {
        if i < |rows| {
          assert rows[i].memberProfile in t.profiles;
        }
      }
    }
  }
}
