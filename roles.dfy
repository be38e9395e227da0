/** The table of roles an applicant can apply for, each with the minimum
    age the refinement enforces (app/apply/page.tsx, `ROLES`). */
module Roles {
  import opened Wrappers

  datatype Role = Role(value: string, name: string, minAge: nat)

  /** The top privileged role, the one that needs first and last name. */
  const CoOwner: string := "co-owner"

  /** `ROLES`, in declaration order. */
  const Table: seq<Role> := [
    Role(CoOwner, "Co-Owner", 18),
    Role("admin", "Admin", 15),
    Role("developer", "Developer", 15),
    Role("mod", "Moderator", 13),
    Role("supporter", "Supporter", 13),
    Role("builder", "Builder", 13)
  ]

  /** The role values, in table order (`ROLES.map((r) => r.value)`), which
      are the options of the schema's enum. */
  function Values(roles: seq<Role>): (vs: seq<string>)
    ensures |vs| == |roles|
    ensures forall i :: 0 <= i < |roles| ==> vs[i] == roles[i].value
  {
    if roles == [] then [] else [roles[0].value] + Values(roles[1..])
  }

  /** The first role whose value is `v` (`ROLES.find((r) => r.value === v)`). */
  function Find(roles: seq<Role>, v: string): (r: Option<Role>)
    ensures r.None? <==> forall i :: 0 <= i < |roles| ==> roles[i].value != v
    ensures r.Some? ==> exists i :: 0 <= i < |roles| && roles[i] == r.value &&
                                    r.value.value == v &&
                                    forall j :: 0 <= j < i ==> roles[j].value != v
  {
    if roles == [] then None
    else if roles[0].value == v then Some(roles[0])
    else
      var rest := Find(roles[1..], v);
      assert rest.Some? ==> exists i :: 0 <= i < |roles| && roles[i] == rest.value &&
                                        forall j :: 0 <= j < i ==> roles[j].value != v by {
        if rest.Some? {
          var k :| 0 <= k < |roles[1..]| && roles[1..][k] == rest.value &&
                   forall j :: 0 <= j < k ==> roles[1..][j].value != v;
          assert roles[k + 1] == rest.value;
          assert forall j :: 0 <= j < k + 1 ==> roles[j].value != v by {
            forall j | 0 <= j < k + 1 ensures roles[j].value != v {
              if j > 0 { assert roles[j] == roles[1..][j - 1]; }
            }
          }
        }
      }
      rest
  }

  /** The lookup returns the first entry carrying the value. */
  lemma FindFirst(roles: seq<Role>, v: string, i: nat)
    requires i < |roles| && roles[i].value == v
    requires forall j :: 0 <= j < i ==> roles[j].value != v
    ensures Find(roles, v) == Some(roles[i])
  {
    var r := Find(roles, v);
    var k :| 0 <= k < |roles| && roles[k] == r.value && forall j :: 0 <= j < k ==> roles[j].value != v;
    assert !(k < i) && !(i < k);
  }

  /** The minimum age of the role selected as `v`, if `v` names a role. */
  function MinAge(v: string): (m: Option<nat>)
    ensures m.Some? <==> v in Values(Table)
    ensures m.Some? ==> 13 <= m.value <= 18
  {
    KnownRoles(v);
    MinAgeBounds(v);
    match Find(Table, v)
    case Some(r) => Some(r.minAge)
    case None => None
  }

  /** The six role values, and no other string, are known roles. */
  lemma KnownRoles(v: string)
    ensures Find(Table, v).Some? <==> v in Values(Table)
    ensures v in Values(Table) <==>
            v in ["co-owner", "admin", "developer", "mod", "supporter", "builder"]
  {
    assert Values(Table) == ["co-owner", "admin", "developer", "mod", "supporter", "builder"];
  }

  /** The table has no value twice. */
  lemma ValuesDistinct()
    ensures forall i, j :: 0 <= i < j < |Table| ==> Table[i].value != Table[j].value
  {
  }

  /** Each entry's value looks up that entry's minimum age. */
  lemma MinAgeAt(i: nat)
    requires i < |Table|
    ensures MinAge(Table[i].value) == Some(Table[i].minAge)
  {
    ValuesDistinct();
    FindFirst(Table, Table[i].value, i);
  }

  /** The minimum age of each role, as the table states it. */
  lemma MinAgeTable()
    ensures MinAge("co-owner") == Some(18)
    ensures MinAge("admin") == Some(15)
    ensures MinAge("developer") == Some(15)
    ensures MinAge("mod") == Some(13)
    ensures MinAge("supporter") == Some(13)
    ensures MinAge("builder") == Some(13)
  {
    MinAgeAt(0);
    MinAgeAt(1);
    MinAgeAt(2);
    MinAgeAt(3);
    MinAgeAt(4);
    MinAgeAt(5);
  }

  /** Every role asks for an age of at least 13, and none for more than 18. */
  lemma MinAgeBounds(v: string)
    ensures Find(Table, v).Some? ==> 13 <= Find(Table, v).value.minAge <= 18
  {
    var r := Find(Table, v);
    if r.Some? {
      var i :| 0 <= i < |Table| && Table[i] == r.value;
      assert 13 <= Table[i].minAge <= 18;
    }
  }
}
