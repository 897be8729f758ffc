/** The member-side repositories as one database: the member, terms,
    consent, profile and profile child tables, with the identity counters
    that number saved rows. */
module MemberTables {
  import opened Wrappers
  import opened MemberEntities
  import opened SignupTerms

  /** Everything the repositories hold. `latestTerms` is what
      `findTopByTypeOrderByVersionDesc` answers for each kind that has
      terms at all. */
  datatype Tables = Tables(
    members: seq<Member>,
    latestTerms: map<TermsType, Terms>,
    memberTerms: seq<MemberTerms>,
    profiles: seq<MemberProfile>,
    interests: seq<ProfileItem>,
    foods: seq<ProfileItem>,
    days: seq<ProfileItem>,
    transportation: seq<ProfileItem>,
    dateMoods: seq<ProfileItem>,
    nextMemberId: int,
    nextProfileId: int)

  /** The five profile child tables. */
  datatype ProfileTable = Interests | Foods | Days | Transportation | DateMoods

  /** `findByEmail(email) != null` */
  predicate EmailTaken(t: Tables, email: string) {
    exists i :: 0 <= i < |t.members| && t.members[i].email == email
  }

  /** Some saved member has the id. */
  predicate HasMemberId(ms: seq<Member>, id: int) {
    exists i :: 0 <= i < |ms| && ms[i].memberId == Some(id)
  }

  /** Saved members: numbered from 1 below the counter in saving order, one
      member per e-mail. */
  predicate SavedMembers(ms: seq<Member>, nextId: int) {
    (forall i :: 0 <= i < |ms| ==> ms[i].memberId.Some? && 1 <= ms[i].memberId.value < nextId)
    && (forall i, j :: 0 <= i < j < |ms| ==> ms[i].memberId.value < ms[j].memberId.value)
    && (forall i, j :: 0 <= i < j < |ms| ==> ms[i].email != ms[j].email)
  }

  /** Saved profiles: numbered from 1 below the counter in saving order. */
  predicate SavedProfiles(ps: seq<MemberProfile>, nextId: int) {
    (forall i :: 0 <= i < |ps| ==> 1 <= ps[i].memberProfileId < nextId)
    && (forall i, j :: 0 <= i < j < |ps| ==> ps[i].memberProfileId < ps[j].memberProfileId)
  }

  /** Every row of a child table belongs to a saved profile. */
  predicate BelongToProfiles(rows: seq<ProfileItem>, ps: seq<MemberProfile>) {
    forall i :: 0 <= i < |rows| ==> rows[i].memberProfile in ps
  }

  /** The integrity the tables keep: unique e-mails and increasing ids,
      each kind's latest terms filed under its kind, consents referencing
      saved members and child rows referencing saved profiles. */
  predicate ValidTables(t: Tables) {
    t.nextMemberId >= 1 && t.nextProfileId >= 1
    && SavedMembers(t.members, t.nextMemberId)
    && (forall k :: k in t.latestTerms ==> t.latestTerms[k].kind == k)
    && (forall i :: 0 <= i < |t.memberTerms| ==> HasMemberId(t.members, t.memberTerms[i].memberId))
    && SavedProfiles(t.profiles, t.nextProfileId)
    && BelongToProfiles(t.interests, t.profiles) && BelongToProfiles(t.foods, t.profiles)
    && BelongToProfiles(t.days, t.profiles) && BelongToProfiles(t.transportation, t.profiles)
    && BelongToProfiles(t.dateMoods, t.profiles)
  }

  /** The repositories, updated in place. */
  class MemberDb {
    var members: seq<Member>
    var latestTerms: map<TermsType, Terms>
    var memberTerms: seq<MemberTerms>
    var profiles: seq<MemberProfile>
    var interests: seq<ProfileItem>
    var foods: seq<ProfileItem>
    var days: seq<ProfileItem>
    var transportation: seq<ProfileItem>
    var dateMoods: seq<ProfileItem>
    var nextMemberId: int
    var nextProfileId: int

    function Snapshot(): Tables
      reads this
    {
      Tables(members, latestTerms, memberTerms, profiles, interests, foods, days, transportation, dateMoods,
             nextMemberId, nextProfileId)
    }

    ghost predicate Valid()
      reads this
    {
      ValidTables(Snapshot())
    }

    /** Empty tables over the published terms. */
    constructor (latestTerms: map<TermsType, Terms>)
      requires forall k :: k in latestTerms ==> latestTerms[k].kind == k
      ensures Valid()
      ensures Snapshot() == Tables([], latestTerms, [], [], [], [], [], [], [], 1, 1)
    {
      this.members, this.latestTerms, this.memberTerms, this.profiles := [], latestTerms, [], [];
      this.interests, this.foods, this.days, this.transportation, this.dateMoods := [], [], [], [], [];
      this.nextMemberId, this.nextProfileId := 1, 1;
    }

    /** MemberRepository.save: the member gets the next identity. */
    method SaveMember(m: Member) returns (saved: Member)
      modifies this
      ensures saved == m.(memberId := Some(old(nextMemberId)))
      ensures Snapshot() == old(Snapshot()).(members := old(members) + [saved], nextMemberId := old(nextMemberId) + 1)
    {
      saved := m.(memberId := Some(nextMemberId));
      members := members + [saved];
      nextMemberId := nextMemberId + 1;
    }

    /** TermsRepository.findTopByTypeOrderByVersionDesc */
    function FindTopByTypeOrderByVersionDesc(kind: TermsType): Option<Terms>
      reads this
    {
      if kind in latestTerms then Some(latestTerms[kind]) else None
    }

    /** MemberTermsRepository.saveAll */
    method SaveAllMemberTerms(rows: seq<MemberTerms>)
      modifies this
      ensures Snapshot() == old(Snapshot()).(memberTerms := old(memberTerms) + rows)
    {
      memberTerms := memberTerms + rows;
    }

    /** MemberProfileRepository.save: the profile gets the next identity. */
    method SaveProfile(p: MemberProfile) returns (saved: MemberProfile)
      modifies this
      ensures saved == p.(memberProfileId := old(nextProfileId))
      ensures Snapshot() == old(Snapshot()).(profiles := old(profiles) + [saved], nextProfileId := old(nextProfileId) + 1)
    {
      saved := p.(memberProfileId := nextProfileId);
      profiles := profiles + [saved];
      nextProfileId := nextProfileId + 1;
    }

    /** saveAll on one of the five child repositories. */
    method SaveAllItems(table: ProfileTable, rows: seq<ProfileItem>)
      modifies this
      ensures table == Interests ==> Snapshot() == old(Snapshot()).(interests := old(interests) + rows)
      ensures table == Foods ==> Snapshot() == old(Snapshot()).(foods := old(foods) + rows)
      ensures table == Days ==> Snapshot() == old(Snapshot()).(days := old(days) + rows)
      ensures table == Transportation ==> Snapshot() == old(Snapshot()).(transportation := old(transportation) + rows)
      ensures table == DateMoods ==> Snapshot() == old(Snapshot()).(dateMoods := old(dateMoods) + rows)
    {
      match table
      case Interests => interests := interests + rows;
      case Foods => foods := foods + rows;
      case Days => days := days + rows;
      case Transportation => transportation := transportation + rows;
      case DateMoods => dateMoods := dateMoods + rows;
    }

    /** A transaction's rollback: the tables return to what they held when
        it began. */
    method Restore(t: Tables)
      modifies this
      ensures Snapshot() == t
    {
      members, latestTerms, memberTerms, profiles := t.members, t.latestTerms, t.memberTerms, t.profiles;
      interests, foods, days, transportation, dateMoods := t.interests, t.foods, t.days, t.transportation, t.dateMoods;
      nextMemberId, nextProfileId := t.nextMemberId, t.nextProfileId;
    }
  }
}
