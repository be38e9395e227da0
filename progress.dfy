/** The completion percentage shown above the form (app/apply/page.tsx,
    the `progress` memo): the share of eight required keys whose current
    value is truthy, rounded half up. */
module Progress {
  import opened Wrappers
  import opened Schema
  import Seqs

  /** The form's current values as `watch()` returns them: any key may
      still be absent before the user touches its control. */
  datatype FormValues = FormValues(
    mcName: Option<string>,
    discord: Option<string>,
    age: Option<int>,
    role: Option<string>,
    motivationWhy: Option<string>,
    motivationContribution: Option<string>,
    experienceTags: Option<seq<string>>,
    experienceText: Option<string>,
    honesty: Option<string>,
    time: Option<string>,
    firstName: Option<string>,
    lastName: Option<string>)

  /** The values at mount: only `experienceTags` has a default, `[]`. */
  const Initial: FormValues :=
    FormValues(None, None, None, None, None, None, Some([]), None, None, None, None, None)

  /** The values of a typed record, every key present. */
  function ValuesOf(a: Application): FormValues {
    FormValues(Some(a.mcName), Some(a.discord), Some(a.age), Some(a.role),
               Some(a.motivationWhy), Some(a.motivationContribution),
               a.experienceTags, a.experienceText, Some(a.honesty), Some(a.time),
               a.firstName, a.lastName)
  }

  /** `!!values[k]`: a string is truthy when non-empty, a number when
      non-zero, an array whenever present (even empty); absent is falsy. */
  predicate Truthy(v: FormValues, k: Field) {
    match k
    case McName => IsTruthy(v.mcName)
    case Discord => IsTruthy(v.discord)
    case Age => v.age.Some? && v.age.value != 0
    case Role => IsTruthy(v.role)
    case MotivationWhy => IsTruthy(v.motivationWhy)
    case MotivationContribution => IsTruthy(v.motivationContribution)
    case ExperienceTags => v.experienceTags.Some?
    case ExperienceText => IsTruthy(v.experienceText)
    case Honesty => IsTruthy(v.honesty)
    case Time => IsTruthy(v.time)
    case FirstName => IsTruthy(v.firstName)
    case LastName => IsTruthy(v.lastName)
  }

  /** The keys progress counts, in the order the memo lists them. */
  const Required: seq<Field> :=
    [McName, Discord, Age, Role, MotivationWhy, MotivationContribution, Honesty, Time]

  /** `keys.filter((k) => !!values[k])`. */
  function FilledKeys(v: FormValues, keys: seq<Field>): (r: seq<Field>)
    ensures |r| <= |keys|
    ensures forall i :: 0 <= i < |r| ==> r[i] in keys && Truthy(v, r[i])
    ensures forall i :: 0 <= i < |keys| && Truthy(v, keys[i]) ==> keys[i] in r
    ensures |r| == |keys| <==> forall i :: 0 <= i < |keys| ==> Truthy(v, keys[i])
    ensures Seqs.SubsequenceOf(r, keys)
    ensures Seqs.NoDuplicates(keys) ==> Seqs.NoDuplicates(r)
  {
    if keys == [] then []
    else
      var rest := FilledKeys(v, keys[1..]);
      if Truthy(v, keys[0]) then
        var r := [keys[0]] + rest;
        assert r[1..] == rest;
        assert Seqs.NoDuplicates(keys) ==> Seqs.NoDuplicates(r) by {
          if Seqs.NoDuplicates(keys) {
            assert Seqs.NoDuplicates(keys[1..]) by {
              forall i, j | 0 <= i < j < |keys[1..]| ensures keys[1..][i] != keys[1..][j] {
                assert keys[1..][i] == keys[i + 1] && keys[1..][j] == keys[j + 1];
              }
            }
            assert keys[0] !in keys[1..];
            forall i, j | 0 <= i < j < |r| ensures r[i] != r[j] {
              assert r[j] == rest[j - 1];
              if i > 0 { assert r[i] == rest[i - 1]; }
            }
          }
        }
        r
      else
        assert Seqs.NoDuplicates(keys) ==> Seqs.NoDuplicates(keys[1..]) by {
          if Seqs.NoDuplicates(keys) {
            forall i, j | 0 <= i < j < |keys[1..]| ensures keys[1..][i] != keys[1..][j] {
              assert keys[1..][i] == keys[i + 1] && keys[1..][j] == keys[j + 1];
            }
          }
        }
        rest
  }

  /** The required keys whose current value is truthy. */
  function TruthyRequired(v: FormValues): set<Field> {
    set k | k in Required && Truthy(v, k)
  }

  /** How many required keys are filled: exactly the number of required
      keys with a truthy value. */
  function Filled(v: FormValues): (n: nat)
    ensures n <= |Required|
    ensures n == |TruthyRequired(v)|
  {
    var r := FilledKeys(v, Required);
    assert Seqs.NoDuplicates(Required);
    assert (set k | k in r) == TruthyRequired(v);
    Seqs.DistinctCardinality(r);
    |r|
  }

  /** `Math.round(num / den)` for non-negative operands: the nearest
      integer, halves going up. */
  function RoundHalfUp(num: nat, den: nat): (r: nat)
    requires den > 0
    ensures 2 * num - den < 2 * den * r <= 2 * num + den
  {
    (2 * num + den) / (2 * den)
  }

  /** `Math.round((filled / required.length) * 100)`. The quotients
      `n / 8 * 100` for n in 0..8 are exact in binary floating point, so no
      rounding error arises before `Math.round`. */
  function PercentOf(filled: nat): (p: nat)
    requires filled <= |Required|
    ensures 8 * p - 4 <= 100 * filled < 8 * p + 4
    ensures p <= 100
  {
    RoundHalfUp(filled * 100, |Required|)
  }

  /** The percentage shown for the current values. */
  function Percent(v: FormValues): (p: nat)
    ensures p <= 100
    ensures 8 * p - 4 <= 100 * |TruthyRequired(v)| < 8 * p + 4
  {
    PercentOf(Filled(v))
  }

  /* ---------------- properties ---------------- */

  /** The rounded percentage is the integer formula `(25 * n + 1) / 2`. */
  lemma PercentFormula(n: nat)
    requires n <= 8
    ensures PercentOf(n) == (n * 25 + 1) / 2
  {
  }

  /** Five of eight filled reads 63 %; the other counts as far as 8. */
  lemma PercentTable()
    ensures PercentOf(0) == 0 && PercentOf(1) == 13 && PercentOf(2) == 25
    ensures PercentOf(3) == 38 && PercentOf(4) == 50 && PercentOf(5) == 63
    ensures PercentOf(6) == 75 && PercentOf(7) == 88 && PercentOf(8) == 100
  {
  }

  /** Form values with exactly five truthy required keys read 63 %. */
  lemma FiveOfEight(v: FormValues)
    requires |TruthyRequired(v)| == 5
    ensures Percent(v) == 63
  {
    PercentTable();
  }

  /** Filling one more key always raises the percentage. */
  lemma {:induction false} PercentStrictlyMonotone(n: nat, m: nat)
    requires n < m <= 8
    ensures PercentOf(n) < PercentOf(m)
  {
    if m != n + 1 {
      PercentStrictlyMonotone(n, m - 1);
    }
  }

  /** The percentage lies in 0..100; it is 0 exactly when no required key is
      filled and 100 exactly when all eight are. */
  lemma PercentBounds(v: FormValues)
    ensures 0 <= Percent(v) <= 100
    ensures Percent(v) == 0 <==> forall i :: 0 <= i < |Required| ==> !Truthy(v, Required[i])
    ensures Percent(v) == 100 <==> forall i :: 0 <= i < |Required| ==> Truthy(v, Required[i])
  {
    var n := Filled(v);
    if n > 0 { PercentStrictlyMonotone(0, n); }
    if n < 8 { PercentStrictlyMonotone(n, 8); }
    if forall i :: 0 <= i < |Required| ==> !Truthy(v, Required[i]) {
      EmptyFilter(v, Required);
    } else {
      var i :| 0 <= i < |Required| && Truthy(v, Required[i]);
      assert Required[i] in FilledKeys(v, Required);
    }
  }

  lemma {:induction false} EmptyFilter(v: FormValues, keys: seq<Field>)
    requires forall i :: 0 <= i < |keys| ==> !Truthy(v, keys[i])
    ensures FilledKeys(v, keys) == []
  {
    if keys != [] {
      EmptyFilter(v, keys[1..]);
    }
  }

  lemma {:induction false} FilledKeysMonotone(v: FormValues, w: FormValues, keys: seq<Field>)
    requires forall i :: 0 <= i < |keys| ==> Truthy(v, keys[i]) ==> Truthy(w, keys[i])
    ensures |FilledKeys(v, keys)| <= |FilledKeys(w, keys)|
  {
    if keys != [] {
      FilledKeysMonotone(v, w, keys[1..]);
    }
  }

  /** Filling in required keys (leaving filled ones filled) never lowers
      the percentage. */
  lemma PercentMonotone(v: FormValues, w: FormValues)
    requires forall i :: 0 <= i < |Required| ==> Truthy(v, Required[i]) ==> Truthy(w, Required[i])
    ensures Percent(v) <= Percent(w)
  {
    FilledKeysMonotone(v, w, Required);
    if Filled(v) < Filled(w) { PercentStrictlyMonotone(Filled(v), Filled(w)); }
  }

  /** The percentage depends on nothing but the truthiness of the eight
      required keys. */
  lemma PercentOnlyTruthiness(v: FormValues, w: FormValues)
    requires forall i :: 0 <= i < |Required| ==> Truthy(v, Required[i]) == Truthy(w, Required[i])
    ensures Percent(v) == Percent(w)
  {
    FilledKeysMonotone(v, w, Required);
    FilledKeysMonotone(w, v, Required);
  }

  /** Editing the names or the experience fields never moves the bar. */
  lemma PercentIgnoresOptional(v: FormValues, tags: Option<seq<string>>, text: Option<string>,
                               first: Option<string>, last: Option<string>)
    ensures Percent(v.(experienceTags := tags, experienceText := text,
                       firstName := first, lastName := last)) == Percent(v)
  {
    var w := v.(experienceTags := tags, experienceText := text, firstName := first, lastName := last);
    PercentOnlyTruthiness(v, w);
  }

  /** The eight required keys, one by one. */
  lemma AllRequiredFilled(v: FormValues)
    requires IsTruthy(v.mcName) && IsTruthy(v.discord) && v.age.Some? && v.age.value != 0
    requires IsTruthy(v.role) && IsTruthy(v.motivationWhy) && IsTruthy(v.motivationContribution)
    requires IsTruthy(v.honesty) && IsTruthy(v.time)
    ensures forall i :: 0 <= i < |Required| ==> Truthy(v, Required[i])
  {
  }

  /** The form starts at 0 %. */
  lemma InitialIsZero()
    ensures Percent(Initial) == 0
  {
    PercentBounds(Initial);
  }

  /** A record the schema accepts is shown as 100 % complete. */
  lemma AcceptedIsComplete(a: Application)
    ensures Validate(a) == [] ==> Percent(ValuesOf(a)) == 100
  {
    ValidateAccepts(a);
    if Accepted(a) {
      AcceptedFillsRequired(a);
    }
  }

  lemma AcceptedFillsRequired(a: Application)
    requires Accepted(a)
    ensures Percent(ValuesOf(a)) == 100
  {
    Roles.KnownRoles(a.role);
    var v := ValuesOf(a);
    assert IsTruthy(v.role);
    AllRequiredFilled(v);
    PercentBounds(v);
  }

  /** The converse fails: 100 % only means every key is non-empty, not that
      any rule holds (one-character names, age 1, an unknown role). */
  lemma CompleteNotAccepted(a: Application)
    requires a == Application("x", "y", 1, "owner", "a", "b", Some([]), None, "c", "d", None, None)
    ensures Percent(ValuesOf(a)) == 100
    ensures Validate(a) != []
  {
    AllRequiredFilled(ValuesOf(a));
    PercentBounds(ValuesOf(a));
    BaseRules(a);
    assert Count(Validate(a), McName) == 1;
  }
}
