/** The consent part of a signup request (ReqSignupTermsDTO): which terms
    must be accepted, and the list of consent rows built from the flags. */
module SignupTerms {
  import opened Wrappers
  import opened Errors

  /** The kinds of terms, in declaration order. */
  datatype TermsType = Service | Privacy | Location | Payment | Marketing | Personalization

  /** `TermsType.entries`: every kind, in declaration order. */
  const TERMS_TYPES: seq<TermsType> := [Service, Privacy, Location, Payment, Marketing, Personalization]

  /** Position of a kind in declaration order. */
  function Ordinal(t: TermsType): (n: nat)
    ensures n < |TERMS_TYPES| && TERMS_TYPES[n] == t
  {
    match t
    case Service => 0
    case Privacy => 1
    case Location => 2
    case Payment => 3
    case Marketing => 4
    case Personalization => 5
  }

  /** A version of the terms of one kind. */
  datatype Terms = Terms(termsId: int, kind: TermsType, version: string, content: string, isRequired: bool)

  /** A member's consent to one version of the terms; the member is
      referenced by id. */
  datatype MemberTerms = MemberTerms(memberId: int, terms: Terms)

  /** The six consent flags of the request. */
  datatype TermsForm = TermsForm(
    agreeTerms: bool,
    agreePrivacy: bool,
    agreeLocation: bool,
    agreePaymentPolicy: bool,
    agreeMarketing: bool,
    agreePersonalized: bool)

  /** A request that omits the two optional flags: both default to false. */
  function WithDefaults(agreeTerms: bool, agreePrivacy: bool, agreeLocation: bool, agreePaymentPolicy: bool)
    : (f: TermsForm)
    ensures !f.agreeMarketing && !f.agreePersonalized
  {
    TermsForm(agreeTerms, agreePrivacy, agreeLocation, agreePaymentPolicy, false, false)
  }

  /** The flag that stands for consent to a kind of terms. */
  function Agreed(f: TermsForm, t: TermsType): bool {
    match t
    case Service => f.agreeTerms
    case Privacy => f.agreePrivacy
    case Location => f.agreeLocation
    case Payment => f.agreePaymentPolicy
    case Marketing => f.agreeMarketing
    case Personalization => f.agreePersonalized
  }

  /** The four @AssertTrue constraints: service, privacy, location and
      payment terms must be accepted; marketing and personalisation are
      optional. */
  predicate RequiredConsents(f: TermsForm) {
    f.agreeTerms && f.agreePrivacy && f.agreeLocation && f.agreePaymentPolicy
  }

  /** The field errors bean validation reports for the flags, each with its
      constraint's message, under the wrapper's `terms.` path. */
  function TermsViolations(f: TermsForm): (errors: seq<FieldError>)
    ensures errors == [] <==> RequiredConsents(f)
    ensures |errors| <= 4
  {
    (if f.agreeTerms then [] else [FieldError("terms.agreeTerms", Some("[필수] 서비스 이용약관에 동의해야 합니다."))])
    + (if f.agreePrivacy then [] else [FieldError("terms.agreePrivacy", Some("[필수] 개인정보 수집 및 이용에 동의해야 합니다."))])
    + (if f.agreeLocation then [] else [FieldError("terms.agreeLocation", Some("[필수] 위치정보 수집 및 이용에 동의해야 합니다."))])
    + (if f.agreePaymentPolicy then [] else [FieldError("terms.agreePaymentPolicy", Some("[필수] 결제/환불 정책에 동의해야 합니다."))])
  }

  /** The kinds among the first `n` declared whose flag is set, in
      declaration order. */
  function AgreedUpTo(f: TermsForm, n: nat): seq<TermsType>
    requires n <= |TERMS_TYPES|
  {
    if n == 0 then [] else
      var t := TERMS_TYPES[n - 1];
      AgreedUpTo(f, n - 1) + (if Agreed(f, t) then [t] else [])
  }

  /** The kinds the request consents to, in declaration order. */
  function AgreedTypes(f: TermsForm): seq<TermsType> {
    AgreedUpTo(f, |TERMS_TYPES|)
  }

  /** How many of the six flags are set. */
  function FlagCount(f: TermsForm): nat {
    (if f.agreeTerms then 1 else 0) + (if f.agreePrivacy then 1 else 0) + (if f.agreeLocation then 1 else 0)
    + (if f.agreePaymentPolicy then 1 else 0) + (if f.agreeMarketing then 1 else 0)
    + (if f.agreePersonalized then 1 else 0)
  }

  /** Kinds listed in strictly increasing declaration order. */
  predicate InOrder(types: seq<TermsType>) {
    forall i, j :: 0 <= i < j < |types| ==> Ordinal(types[i]) < Ordinal(types[j])
  }

  /** The first `n` declared kinds are those of ordinal below `n`. */
  lemma OrdinalOfListed(i: nat)
    requires i < |TERMS_TYPES|
    ensures Ordinal(TERMS_TYPES[i]) == i
  {
  }

  /** The filtered prefix holds exactly the agreed kinds of ordinal below
      `n`, in declaration order. */
  lemma {:induction false} AgreedUpToShape(f: TermsForm, n: nat)
    requires n <= |TERMS_TYPES|
    ensures forall t :: t in AgreedUpTo(f, n) <==> Ordinal(t) < n && Agreed(f, t)
    ensures InOrder(AgreedUpTo(f, n))
  {
    if n > 0 {
      var prev := AgreedUpTo(f, n - 1);
      var t := TERMS_TYPES[n - 1];
      AgreedUpToShape(f, n - 1);
      OrdinalOfListed(n - 1);
      forall u ensures Ordinal(u) == n - 1 ==> u == t {
        assert TERMS_TYPES[Ordinal(u)] == u;
      }
      forall i | 0 <= i < |prev| ensures Ordinal(prev[i]) < Ordinal(t) {
        assert prev[i] in prev;
      }
    }
  }

  /** One consent row per set flag: the list is as long as the number of
      flags set. */
  lemma AgreedTypesCount(f: TermsForm)
    ensures |AgreedTypes(f)| == FlagCount(f)
  {
    assert AgreedUpTo(f, 1) == AgreedUpTo(f, 0) + (if f.agreeTerms then [Service] else []);
    assert AgreedUpTo(f, 2) == AgreedUpTo(f, 1) + (if f.agreePrivacy then [Privacy] else []);
    assert AgreedUpTo(f, 3) == AgreedUpTo(f, 2) + (if f.agreeLocation then [Location] else []);
    assert AgreedUpTo(f, 4) == AgreedUpTo(f, 3) + (if f.agreePaymentPolicy then [Payment] else []);
    assert AgreedUpTo(f, 5) == AgreedUpTo(f, 4) + (if f.agreeMarketing then [Marketing] else []);
  }

  /** The list holds each agreed kind and nothing else, in declaration
      order, so no kind twice. */
  lemma AgreedTypesInOrder(f: TermsForm)
    ensures forall t :: t in AgreedTypes(f) <==> Agreed(f, t)
    ensures InOrder(AgreedTypes(f))
  {
    AgreedUpToShape(f, |TERMS_TYPES|);
  }

  /** A request with only the required consents, the optional flags left at
      their defaults, yields the four required kinds in order. */
  lemma MinimalRequestYieldsFour()
    ensures RequiredConsents(WithDefaults(true, true, true, true))
    ensures AgreedTypes(WithDefaults(true, true, true, true)) == [Service, Privacy, Location, Payment]
  {
    var f := WithDefaults(true, true, true, true);
    assert AgreedUpTo(f, 4) == [Service, Privacy, Location, Payment];
    assert AgreedUpTo(f, 5) == AgreedUpTo(f, 4);
    assert AgreedUpTo(f, 6) == AgreedUpTo(f, 5);
  }

  /** `rows` are the consent rows for `types`, one per kind and in the same
      order, each referencing the member and the terms the map holds for
      its kind. */
  predicate ConsentRows(rows: seq<MemberTerms>, types: seq<TermsType>, memberId: int, termsMap: map<TermsType, Terms>) {
    |rows| == |types|
    && forall i :: 0 <= i < |rows| ==> types[i] in termsMap && rows[i] == MemberTerms(memberId, termsMap[types[i]])
  }

  /** The consent rows for `types`, built directly. */
  function ConsentRowsFor(types: seq<TermsType>, memberId: int, termsMap: map<TermsType, Terms>): (rows: seq<MemberTerms>)
    requires forall i :: 0 <= i < |types| ==> types[i] in termsMap
    ensures ConsentRows(rows, types, memberId, termsMap)
  {
    seq(|types|, i requires 0 <= i < |types| => MemberTerms(memberId, termsMap[types[i]]))
  }

  /** Rows matched to the kinds are determined by them. */
  lemma ConsentRowsUnique(rows: seq<MemberTerms>, types: seq<TermsType>, memberId: int, termsMap: map<TermsType, Terms>)
    requires ConsentRows(rows, types, memberId, termsMap)
    ensures rows == ConsentRowsFor(types, memberId, termsMap)
  {
  }

  /** Appending a kind and its row keeps the rows matched to the kinds. */
  lemma ConsentRowsSnoc(rows: seq<MemberTerms>, types: seq<TermsType>, t: TermsType, memberId: int,
                        termsMap: map<TermsType, Terms>)
    requires ConsentRows(rows, types, memberId, termsMap) && t in termsMap
    ensures ConsentRows(rows + [MemberTerms(memberId, termsMap[t])], types + [t], memberId, termsMap)
  {
  }

  /** toMemberTermsEntity: one row per set flag, appended in declaration
      order. The map must hold the terms of every agreed kind (each lookup
      is asserted non-null). */
  method ToMemberTermsEntity(f: TermsForm, memberId: int, termsMap: map<TermsType, Terms>)
    returns (list: seq<MemberTerms>)
    requires forall t :: Agreed(f, t) ==> t in termsMap
    ensures ConsentRows(list, AgreedTypes(f), memberId, termsMap)
  {
    ghost var types: seq<TermsType> := [];
    list := [];
    if f.agreeTerms {
      ConsentRowsSnoc(list, types, Service, memberId, termsMap);
      list := list + [MemberTerms(memberId, termsMap[Service])];
      types := types + [Service];
    }
    assert types == AgreedUpTo(f, 1);
    if f.agreePrivacy {
      ConsentRowsSnoc(list, types, Privacy, memberId, termsMap);
      list := list + [MemberTerms(memberId, termsMap[Privacy])];
      types := types + [Privacy];
    }
    assert types == AgreedUpTo(f, 2);
    if f.agreeLocation {
      ConsentRowsSnoc(list, types, Location, memberId, termsMap);
      list := list + [MemberTerms(memberId, termsMap[Location])];
      types := types + [Location];
    }
    assert types == AgreedUpTo(f, 3);
    if f.agreePaymentPolicy {
      ConsentRowsSnoc(list, types, Payment, memberId, termsMap);
      list := list + [MemberTerms(memberId, termsMap[Payment])];
      types := types + [Payment];
    }
    assert types == AgreedUpTo(f, 4);
    if f.agreeMarketing {
      ConsentRowsSnoc(list, types, Marketing, memberId, termsMap);
      list := list + [MemberTerms(memberId, termsMap[Marketing])];
      types := types + [Marketing];
    }
    assert types == AgreedUpTo(f, 5);
    if f.agreePersonalized {
      ConsentRowsSnoc(list, types, Personalization, memberId, termsMap);
      list := list + [MemberTerms(memberId, termsMap[Personalization])];
      types := types + [Personalization];
    }
  }
}
