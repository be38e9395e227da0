/** The application schema (app/apply/page.tsx, `formSchema`): a base rule
    per field followed by the two cross-field refinements, evaluated over a
    fully typed record into a list of issues. */
module Schema {
  import opened Wrappers
  import Roles

  /** The fields of the form, in the order the schema declares them. */
  datatype Field =
    | McName | Discord | Age | Role
    | MotivationWhy | MotivationContribution
    | ExperienceTags | ExperienceText
    | Honesty | Time
    | FirstName | LastName

  /** The message of an issue. The library's texts and the German custom
      texts are kept abstract; each case carries what its text mentions. */
  datatype Message =
    | TooShort(minLength: nat)                          // string shorter than `.min(n)`
    | TooSmall(minimum: int)                            // number below `.min(n)`
    | InvalidRole(options: seq<string>, received: string) // value outside the enum
    | UnderAge(roleName: string, minAge: nat)           // "Für <role> musst du mindestens <n> Jahre alt sein."
    | NamesRequired                                     // "Vor- und Nachname sind für Co-Owner erforderlich"

  datatype Issue = Issue(path: Field, message: Message)

  /** The form values once every field has the type the schema declares;
      the optional fields may be absent. */
  datatype Application = Application(
    mcName: string,
    discord: string,
    age: int,
    role: string,
    motivationWhy: string,
    motivationContribution: string,
    experienceTags: Option<seq<string>>,
    experienceText: Option<string>,
    honesty: string,
    time: string,
    firstName: Option<string>,
    lastName: Option<string>)

  /** JavaScript truthiness of an optional string: present and non-empty. */
  predicate IsTruthy(s: Option<string>) {
    s.Some? && |s.value| > 0
  }

  /* ---------------- base rules ---------------- */

  /** `z.string().min(n)` on the field `path`. */
  function MinLength(path: Field, s: string, n: nat): (r: seq<Issue>)
    ensures |r| <= 1
    ensures r == [] <==> |s| >= n
    ensures forall i :: 0 <= i < |r| ==> r[i].path == path
  {
    if |s| < n then [Issue(path, TooShort(n))] else []
  }

  /** `z.number().min(n)` on the field `path`. */
  function AtLeast(path: Field, x: int, n: int): (r: seq<Issue>)
    ensures |r| <= 1
    ensures r == [] <==> x >= n
    ensures forall i :: 0 <= i < |r| ==> r[i].path == path
  {
    if x < n then [Issue(path, TooSmall(n))] else []
  }

  /** `z.enum(options)` on the field `path`. */
  function OneOf(path: Field, v: string, options: seq<string>): (r: seq<Issue>)
    ensures |r| <= 1
    ensures r == [] <==> v in options
    ensures forall i :: 0 <= i < |r| ==> r[i].path == path
  {
    if v in options then [] else [Issue(path, InvalidRole(options, v))]
  }

  /** The issues of the field rules, in field order. The optional fields
      accept every value of their type, so they contribute nothing. */
  function BaseIssues(a: Application): (r: seq<Issue>)
    ensures |r| <= 8
    ensures forall i :: 0 <= i < |r| ==>
              r[i].path in [McName, Discord, Age, Role, MotivationWhy, MotivationContribution, Honesty, Time]
  {
    MinLength(McName, a.mcName, 2) +
    MinLength(Discord, a.discord, 2) +
    AtLeast(Age, a.age, 10) +
    OneOf(Role, a.role, Roles.Values(Roles.Table)) +
    MinLength(MotivationWhy, a.motivationWhy, 10) +
    MinLength(MotivationContribution, a.motivationContribution, 10) +
    MinLength(Honesty, a.honesty, 5) +
    MinLength(Time, a.time, 1)
  }

  /* ---------------- refinements ---------------- */

  /** The age refinement: below the selected role's minimum age. */
  function AgeRule(a: Application): (r: seq<Issue>)
    ensures |r| <= 1
    ensures forall i :: 0 <= i < |r| ==> r[i].path == Age
  {
    match Roles.Find(Roles.Table, a.role)
    case Some(role) =>
      if a.age < role.minAge then [Issue(Age, UnderAge(role.name, role.minAge))] else []
    case None => []
  }

  /** The co-owner refinement: first or last name missing or empty. The
      issue is filed under `firstName` whichever of the two is missing. */
  function NameRule(a: Application): (r: seq<Issue>)
    ensures |r| <= 1
    ensures forall i :: 0 <= i < |r| ==> r[i] == Issue(FirstName, NamesRequired)
  {
    if a.role == Roles.CoOwner && (!IsTruthy(a.firstName) || !IsTruthy(a.lastName))
    then [Issue(FirstName, NamesRequired)]
    else []
  }

  /** The refinements' issues: at most one under `age`, then at most one
      under `firstName`. */
  function RefineIssues(a: Application): (r: seq<Issue>)
    ensures |r| <= 2
    ensures forall i :: 0 <= i < |r| ==> r[i].path == Age || r[i].path == FirstName
  {
    AgeRule(a) + NameRule(a)
  }

  /** Every issue the schema reports for `a`: field rules, then refinements. */
  function Validate(a: Application): (r: seq<Issue>)
    ensures |r| <= 10
    ensures forall i :: 0 <= i < |r| ==> r[i].path !in [ExperienceTags, ExperienceText, LastName]
  {
    BaseIssues(a) + RefineIssues(a)
  }

  /* ---------------- reference definition ---------------- */

  /** The rules of the form, stated on their own terms: each field meets its
      rule, the role is one of the table's values, the applicant is at least
      as old as every table entry for that value demands, and a co-owner
      gives both names. */
  predicate Accepted(a: Application) {
    |a.mcName| >= 2 && |a.discord| >= 2 && a.age >= 10 &&
    a.role in Roles.Values(Roles.Table) &&
    |a.motivationWhy| >= 10 && |a.motivationContribution| >= 10 &&
    |a.honesty| >= 5 && |a.time| >= 1 &&
    (forall i :: 0 <= i < |Roles.Table| && Roles.Table[i].value == a.role ==>
       a.age >= Roles.Table[i].minAge) &&
    (a.role == Roles.CoOwner ==> IsTruthy(a.firstName) && IsTruthy(a.lastName))
  }

  /** The selected role is known and asks for more than the applicant's age. */
  predicate UnderRoleAge(a: Application)
    ensures a.age >= 18 ==> !UnderRoleAge(a)
    ensures a.age < 13 && a.role in Roles.Values(Roles.Table) ==> UnderRoleAge(a)
  {
    Roles.MinAgeBounds(a.role);
    Roles.KnownRoles(a.role);
    match Roles.MinAge(a.role)
    case Some(m) => a.age < m
    case None => false
  }

  /* ---------------- counting issues per field ---------------- */

  /** How many issues are filed under `f`. */
  function Count(issues: seq<Issue>, f: Field): nat {
    if issues == [] then 0
    else (if issues[0].path == f then 1 else 0) + Count(issues[1..], f)
  }

  lemma {:induction false} CountConcat(x: seq<Issue>, y: seq<Issue>, f: Field)
    ensures Count(x + y, f) == Count(x, f) + Count(y, f)
  {
    if x == [] {
      assert x + y == y;
    } else {
      assert (x + y)[1..] == x[1..] + y;
      CountConcat(x[1..], y, f);
    }
  }

  /** An issue list of at most one element, all filed under `path`. */
  lemma CountSingle(r: seq<Issue>, path: Field, f: Field)
    requires |r| <= 1
    requires forall i :: 0 <= i < |r| ==> r[i].path == path
    ensures Count(r, f) == if r != [] && path == f then 1 else 0
  {
    if r != [] { assert r[1..] == []; }
  }

  /** Counting respects the two halves of the result. */
  lemma CountValidate(a: Application, f: Field)
    ensures Count(Validate(a), f) == Count(BaseIssues(a), f) + Count(AgeRule(a), f) + Count(NameRule(a), f)
  {
    CountConcat(AgeRule(a), NameRule(a), f);
    CountConcat(BaseIssues(a), RefineIssues(a), f);
  }

  /** The base rules' count under `f`: one per field rule `f` fails. */
  lemma CountBase(a: Application, f: Field)
    ensures Count(BaseIssues(a), f) ==
      (if f == McName && |a.mcName| < 2 then 1 else 0) +
      (if f == Discord && |a.discord| < 2 then 1 else 0) +
      (if f == Age && a.age < 10 then 1 else 0) +
      (if f == Role && a.role !in Roles.Values(Roles.Table) then 1 else 0) +
      (if f == MotivationWhy && |a.motivationWhy| < 10 then 1 else 0) +
      (if f == MotivationContribution && |a.motivationContribution| < 10 then 1 else 0) +
      (if f == Honesty && |a.honesty| < 5 then 1 else 0) +
      (if f == Time && |a.time| < 1 then 1 else 0)
  {
    var p1 := MinLength(McName, a.mcName, 2);
    var p2 := MinLength(Discord, a.discord, 2);
    var p3 := AtLeast(Age, a.age, 10);
    var p4 := OneOf(Role, a.role, Roles.Values(Roles.Table));
    var p5 := MinLength(MotivationWhy, a.motivationWhy, 10);
    var p6 := MinLength(MotivationContribution, a.motivationContribution, 10);
    var p7 := MinLength(Honesty, a.honesty, 5);
    var p8 := MinLength(Time, a.time, 1);
    CountSingle(p1, McName, f);
    CountSingle(p2, Discord, f);
    CountSingle(p3, Age, f);
    CountSingle(p4, Role, f);
    CountSingle(p5, MotivationWhy, f);
    CountSingle(p6, MotivationContribution, f);
    CountSingle(p7, Honesty, f);
    CountSingle(p8, Time, f);
    CountSum8(p1, p2, p3, p4, p5, p6, p7, p8, f);
  }

  lemma CountSum8(p1: seq<Issue>, p2: seq<Issue>, p3: seq<Issue>, p4: seq<Issue>,
                  p5: seq<Issue>, p6: seq<Issue>, p7: seq<Issue>, p8: seq<Issue>, f: Field)
    ensures Count(p1 + p2 + p3 + p4 + p5 + p6 + p7 + p8, f) ==
      Count(p1, f) + Count(p2, f) + Count(p3, f) + Count(p4, f) +
      Count(p5, f) + Count(p6, f) + Count(p7, f) + Count(p8, f)
  {
    CountConcat(p1, p2, f);
    CountConcat(p1 + p2, p3, f);
    CountConcat(p1 + p2 + p3, p4, f);
    CountConcat(p1 + p2 + p3 + p4, p5, f);
    CountConcat(p1 + p2 + p3 + p4 + p5, p6, f);
    CountConcat(p1 + p2 + p3 + p4 + p5 + p6, p7, f);
    CountConcat(p1 + p2 + p3 + p4 + p5 + p6 + p7, p8, f);
  }

  /** The refinements' counts: the age rule under `age`, the name rule
      under `firstName`. */
  lemma CountRefine(a: Application, f: Field)
    ensures Count(AgeRule(a), f) == if f == Age && UnderRoleAge(a) then 1 else 0
    ensures Count(NameRule(a), f) ==
      if f == FirstName && a.role == Roles.CoOwner && (!IsTruthy(a.firstName) || !IsTruthy(a.lastName))
      then 1 else 0
  {
    CountSingle(AgeRule(a), Age, f);
    CountSingle(NameRule(a), FirstName, f);
    assert AgeRule(a) != [] <==> UnderRoleAge(a);
  }

  /** The counts of every rule, under field `f`. */
  lemma CountRules(a: Application, f: Field)
    ensures Count(Validate(a), f) == Count(BaseIssues(a), f) +
      (if f == Age && UnderRoleAge(a) then 1 else 0) +
      (if f == FirstName && a.role == Roles.CoOwner && (!IsTruthy(a.firstName) || !IsTruthy(a.lastName))
       then 1 else 0)
  {
    CountValidate(a, f);
    CountRefine(a, f);
  }

  /* ---------------- properties ---------------- */

  /** Each text field gets exactly one issue when shorter than its minimum
      and none otherwise. */
  lemma BaseRules(a: Application)
    ensures Count(Validate(a), McName) == if |a.mcName| < 2 then 1 else 0
    ensures Count(Validate(a), Discord) == if |a.discord| < 2 then 1 else 0
    ensures Count(Validate(a), MotivationWhy) == if |a.motivationWhy| < 10 then 1 else 0
    ensures Count(Validate(a), MotivationContribution) == if |a.motivationContribution| < 10 then 1 else 0
    ensures Count(Validate(a), Honesty) == if |a.honesty| < 5 then 1 else 0
    ensures Count(Validate(a), Time) == if |a.time| < 1 then 1 else 0
  {
    CountRules(a, McName);
    CountBase(a, McName);
    CountRules(a, Discord);
    CountBase(a, Discord);
    CountRules(a, MotivationWhy);
    CountBase(a, MotivationWhy);
    CountRules(a, MotivationContribution);
    CountBase(a, MotivationContribution);
    CountRules(a, Honesty);
    CountBase(a, Honesty);
    CountRules(a, Time);
    CountBase(a, Time);
  }

  /** The optional fields never get an issue of their own, and the last name
      never gets one at all. */
  lemma OptionalFieldsNeverFlagged(a: Application)
    ensures Count(Validate(a), ExperienceTags) == 0
    ensures Count(Validate(a), ExperienceText) == 0
    ensures Count(Validate(a), LastName) == 0
  {
    CountRules(a, ExperienceTags);
    CountBase(a, ExperienceTags);
    CountRules(a, ExperienceText);
    CountBase(a, ExperienceText);
    CountRules(a, LastName);
    CountBase(a, LastName);
  }

  /** The role is rejected exactly when it is not one of the six values. */
  lemma RoleMembership(a: Application)
    ensures Count(Validate(a), Role) ==
      if a.role in ["co-owner", "admin", "developer", "mod", "supporter", "builder"] then 0 else 1
  {
    CountRules(a, Role);
    CountBase(a, Role);
    Roles.KnownRoles(a.role);
  }

  /** The refinement files exactly one age issue, naming the role and its
      minimum, when the selected role asks for more than the age, and none
      otherwise. The age field may also carry the base rule's issue. */
  lemma AgeVersusRole(a: Application)
    ensures Count(RefineIssues(a), Age) == if UnderRoleAge(a) then 1 else 0
    ensures UnderRoleAge(a) ==> Issue(Age, UnderAge(Roles.Find(Roles.Table, a.role).value.name,
                                                    Roles.MinAge(a.role).value)) in Validate(a)
    ensures Count(Validate(a), Age) ==
      (if a.age < 10 then 1 else 0) + (if UnderRoleAge(a) then 1 else 0)
  {
    CountConcat(AgeRule(a), NameRule(a), Age);
    CountRefine(a, Age);
    if UnderRoleAge(a) {
      assert AgeRule(a)[0] in Validate(a);
    }
    CountRules(a, Age);
    CountBase(a, Age);
  }

  /** A co-owner missing either name gets exactly one issue, under
      `firstName`; giving both names, or any other role, gets none. */
  lemma CoOwnerNames(a: Application)
    ensures Count(Validate(a), FirstName) ==
      if a.role == Roles.CoOwner && (!IsTruthy(a.firstName) || !IsTruthy(a.lastName)) then 1 else 0
    ensures a.role != Roles.CoOwner ==> Issue(FirstName, NamesRequired) !in Validate(a)
    ensures Count(Validate(a), LastName) == 0
  {
    CountRules(a, FirstName);
    CountBase(a, FirstName);
    CountRules(a, LastName);
    CountBase(a, LastName);
    if a.role != Roles.CoOwner {
      assert Issue(FirstName, NamesRequired) !in BaseIssues(a);
    }
  }

  /** The schema reports nothing exactly when the record meets every rule. */
  lemma ValidateAccepts(a: Application)
    ensures Validate(a) == [] <==> Accepted(a)
  {
    Roles.ValuesDistinct();
    var m := Roles.Find(Roles.Table, a.role);
    Roles.KnownRoles(a.role);
    if m.Some? {
      var k :| 0 <= k < |Roles.Table| && Roles.Table[k] == m.value;
      assert forall i :: 0 <= i < |Roles.Table| && Roles.Table[i].value == a.role ==> i == k;
    }
  }

  /** An accepted record is at least 13 years old, at least the selected
      role's minimum age, and a co-owner is an adult who gave both names. */
  lemma AcceptedApplicant(a: Application)
    ensures Validate(a) == [] ==> Roles.MinAge(a.role).Some? && a.age >= Roles.MinAge(a.role).value
    ensures Validate(a) == [] ==> a.age >= 13
    ensures Validate(a) == [] && a.role == Roles.CoOwner ==>
              a.age >= 18 && IsTruthy(a.firstName) && IsTruthy(a.lastName)
  {
    ValidateAccepts(a);
    Roles.KnownRoles(a.role);
    Roles.MinAgeBounds(a.role);
    Roles.MinAgeTable();
  }

  /** A 12-year-old applying as builder is refused on the age field; at 13
      the same application passes. */
  lemma BuilderExample(a: Application)
    requires a == Application("Max", "max#1234", 12, "builder",
                              "Weil der Server toll ist", "Ich baue gerne Maps",
                              Some([]), None, "Geduld haben", "10 Stunden", None, None)
    ensures Count(Validate(a), Age) == 1
    ensures Validate(a.(age := 13)) == []
  {
    Roles.MinAgeTable();
    assert UnderRoleAge(a);
    AgeVersusRole(a);
    var b := a.(age := 13);
    Roles.KnownRoles(b.role);
    Roles.ValuesDistinct();
    assert Roles.Table[5].value == "builder";
    assert forall i :: 0 <= i < |Roles.Table| && Roles.Table[i].value == b.role ==> i == 5;
    assert Accepted(b);
    ValidateAccepts(b);
  }
}
