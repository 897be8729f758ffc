/** MemberServiceImpl: signup and profile creation over the member
    repositories, each proved to do what MemberSpec says. */
module Members {
  import opened Wrappers
  import opened Errors
  import opened SignupTerms
  import opened SignupRequest
  import opened MemberTables
  import MemberSpec

  /** `TermsType.entries.associateWith { findTopByTypeOrderByVersionDesc(it)
      ?: throw TERMS_NOT_FOUND }`: the latest terms of every kind, looked up
      in declaration order; the first kind without terms ends the lookup. */
  method LatestTermsMap(db: MemberDb) returns (r: Result<map<TermsType, Terms>, Failure>)
    ensures r.Ok? <==> MemberSpec.AllTermsPublished(db.latestTerms)
    ensures r.Err? ==> r.error == AuthFailure(TermsNotFound)
    ensures r.Ok? ==> r.value == db.latestTerms
  {
    var found: map<TermsType, Terms> := map[];
    var i := 0;
    while i < |TERMS_TYPES|
      invariant 0 <= i <= |TERMS_TYPES|
      invariant forall k :: k in found <==> Ordinal(k) < i
      invariant forall k :: k in found ==> k in db.latestTerms && found[k] == db.latestTerms[k]
    {
      var kind := TERMS_TYPES[i];
      OrdinalOfListed(i);
      var latest := db.FindTopByTypeOrderByVersionDesc(kind);
      if latest.None? {
        return Err(AuthFailure(TermsNotFound));
      }
      found := found[kind := latest.value];
      i := i + 1;
    }
    r := Ok(found);
  }

  /** The body of signup, shared by MemberServiceImpl and the member
      AuthServiceImpl. It runs as one transaction: when the terms lookup
      throws, the member already saved is rolled back. */
  method SignupTransaction(db: MemberDb, encode: string -> string, member: MemberForm, terms: TermsForm)
    returns (r: Result<int, Failure>)
    requires db.Valid()
    modifies db
    ensures db.Valid()
    ensures MemberSpec.SignupOutcome(r, db.Snapshot()) == MemberSpec.Signup(old(db.Snapshot()), encode, member, terms)
  {
    var start := db.Snapshot();
    MemberSpec.SignupKeepsTablesValid(start, encode, member, terms);
    if EmailTaken(start, member.email) {
      return Err(AuthFailure(AuthEmailAlreadyExists));
    }
    var encodedPassword := encode(member.password);
    var entity := ToMemberEntity(member, encodedPassword);
    if entity.Err? {
      return Err(entity.error);
    }
    var savedMember := db.SaveMember(entity.value);
    var latestTermsMap := LatestTermsMap(db);
    if latestTermsMap.Err? {
      db.Restore(start);
      return Err(latestTermsMap.error);
    }
    var memberTermsList := ToMemberTermsEntity(terms, savedMember.memberId.value, latestTermsMap.value);
    ConsentRowsUnique(memberTermsList, AgreedTypes(terms), savedMember.memberId.value, latestTermsMap.value);
    db.SaveAllMemberTerms(memberTermsList);
    r := Ok(savedMember.memberId.value);
    ghost var expected := start.(members := start.members + [savedMember], nextMemberId := start.nextMemberId + 1,
                                 memberTerms := start.memberTerms + memberTermsList);
    assert db.Snapshot() == expected;
    assert MemberSpec.Signup(start, encode, member, terms) == MemberSpec.SignupOutcome(r, expected);
  }

  /** MemberServiceImpl over its repositories and password encoder. */
  class MemberService {
    const db: MemberDb
    /** PasswordEncoder.encode */
    const encode: string -> string

    constructor (db: MemberDb, encode: string -> string)
      ensures this.db == db && this.encode == encode
    {
      this.db := db;
      this.encode := encode;
    }

    /** signup */
    method Signup(member: MemberForm, terms: TermsForm) returns (r: Result<int, Failure>)
      requires db.Valid()
      modifies db
      ensures db.Valid()
      ensures MemberSpec.SignupOutcome(r, db.Snapshot()) == MemberSpec.Signup(old(db.Snapshot()), encode, member, terms)
    {
      r := SignupTransaction(db, encode, member, terms);
    }

    /** createProfile: save the profile, then the five child lists, each as
      one saveAll even when it is empty. */
    method CreateProfile(req: MemberSpec.ProfileForm)
      requires db.Valid()
      modifies db
      ensures db.Valid()
      ensures db.Snapshot() == MemberSpec.CreateProfile(old(db.Snapshot()), req)
    {
      MemberSpec.CreateProfileKeepsTablesValid(db.Snapshot(), req);
      var profile := MemberSpec.ProfileRow(req, 0);
      var savedProfile := db.SaveProfile(profile);
      db.SaveAllItems(Interests, MemberSpec.Items(req.interests, savedProfile));
      db.SaveAllItems(Foods, MemberSpec.Items(req.foodPreferences, savedProfile));
      db.SaveAllItems(Days, MemberSpec.Items(req.preferredDays, savedProfile));
      db.SaveAllItems(Transportation, MemberSpec.Items(req.transportation, savedProfile));
      db.SaveAllItems(DateMoods, MemberSpec.Items(req.dateMoods, savedProfile));
    }
  }
}
