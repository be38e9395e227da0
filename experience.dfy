/** The experience checkboxes (app/apply/page.tsx, the `experienceTags`
    controller): checking appends the option to the tag list, unchecking
    filters it out, and the checkbox and the details box are derived from
    the list. */
module Experience {
  import opened Wrappers
  import Seqs

  /** `EXPERIENCE_OPTIONS`, in the order the checkboxes appear. */
  const Options: seq<string> := ["Support", "Moderation", "Events", "Development", "Building"]

  /** `[...(value ?? []), opt]`. */
  function Check(tags: Option<seq<string>>, opt: string): (r: seq<string>)
    ensures |r| == |tags.GetOr([])| + 1
    ensures r[..|r| - 1] == tags.GetOr([]) && r[|r| - 1] == opt
  {
    tags.GetOr([]) + [opt]
  }

  /** `value?.filter((x) => x !== opt)`: an absent list stays absent. */
  function Uncheck(tags: Option<seq<string>>, opt: string): (r: Option<seq<string>>)
    ensures r.Some? <==> tags.Some?
    ensures r.Some? ==> opt !in r.value && |r.value| <= |tags.value|
    ensures r.Some? ==> forall i :: 0 <= i < |tags.value| && tags.value[i] != opt ==> tags.value[i] in r.value
    ensures r.Some? ==> forall i :: 0 <= i < |r.value| ==> r.value[i] in tags.value
  {
    match tags
    case Some(s) => Some(Seqs.RemoveAll(s, opt))
    case None => None
  }

  /** `onCheckedChange(v)` of the checkbox for `opt`: the new field value. */
  function OnCheckedChange(tags: Option<seq<string>>, opt: string, checked: bool): (r: Option<seq<string>>)
    ensures IsChecked(r, opt) <==> checked
    ensures checked ==> ShowsDetails(r)
  {
    if checked then Some(Check(tags, opt)) else Uncheck(tags, opt)
  }

  /** `field.value?.includes(opt)`: the checkbox state. */
  predicate IsChecked(tags: Option<seq<string>>, opt: string) {
    tags.Some? && opt in tags.value
  }

  /** `experienceTags && experienceTags.length > 0`: the details box is shown. */
  predicate ShowsDetails(tags: Option<seq<string>>) {
    tags.Some? && |tags.value| > 0
  }

  /** A click flips the checkbox it lands on. */
  function Click(tags: Option<seq<string>>, opt: string): (r: Option<seq<string>>)
    ensures IsChecked(r, opt) <==> !IsChecked(tags, opt)
  {
    OnCheckedChange(tags, opt, !IsChecked(tags, opt))
  }

  /* ---------------- properties ---------------- */

  /** Checking keeps every earlier tag at its place and shows `opt` as
      checked; the other checkboxes keep their state. */
  lemma CheckEffect(tags: Option<seq<string>>, opt: string, other: string)
    requires other != opt
    ensures IsChecked(Some(Check(tags, opt)), opt)
    ensures IsChecked(Some(Check(tags, opt)), other) <==> IsChecked(tags, other)
    ensures ShowsDetails(Some(Check(tags, opt)))
    ensures forall i :: 0 <= i < |tags.GetOr([])| ==> Check(tags, opt)[i] == tags.GetOr([])[i]
  {
    var r := Check(tags, opt);
    assert r == tags.GetOr([]) + [opt];
  }

  /** Unchecking shows `opt` as unchecked, leaves the other checkboxes as
      they were, and keeps the remaining tags in their original order and
      multiplicity. */
  lemma UncheckEffect(s: seq<string>, opt: string, other: string)
    requires other != opt
    ensures !IsChecked(Uncheck(Some(s), opt), opt)
    ensures IsChecked(Uncheck(Some(s), opt), other) <==> IsChecked(Some(s), other)
    ensures Seqs.SubsequenceOf(Uncheck(Some(s), opt).value, s)
    ensures multiset(Uncheck(Some(s), opt).value)[other] == multiset(s)[other]
    ensures ShowsDetails(Uncheck(Some(s), opt)) <==> exists i :: 0 <= i < |s| && s[i] != opt
  {
    Seqs.RemoveAllIsSubsequence(s, opt);
    Seqs.RemoveAllCounts(s, opt);
    var r := Seqs.RemoveAll(s, opt);
    if exists i :: 0 <= i < |s| && s[i] != opt {
      var i :| 0 <= i < |s| && s[i] != opt;
      assert s[i] in r;
    }
    if other in s {
      var i :| 0 <= i < |s| && s[i] == other;
      assert other in r;
    }
  }

  /** Unchecking an absent list leaves it absent, so nothing is checked. */
  lemma UncheckAbsent(opt: string)
    ensures Uncheck(None, opt) == None && !ShowsDetails(Uncheck(None, opt))
  {
  }

  /** Unchecking undoes checking: the earlier tags come back, minus every
      copy of `opt`; for a tag that was not there, exactly the old list. */
  lemma UncheckUndoesCheck(s: seq<string>, opt: string)
    ensures Uncheck(Some(Check(Some(s), opt)), opt) == Uncheck(Some(s), opt)
    ensures opt !in s ==> Uncheck(Some(Check(Some(s), opt)), opt) == Some(s)
  {
    Seqs.RemoveAllConcat(s, [opt], opt);
    assert [opt][1..] == [];
    assert Seqs.RemoveAll([opt], opt) == [];
    assert Check(Some(s), opt) == s + [opt];
    assert Seqs.RemoveAll(s, opt) + [] == Seqs.RemoveAll(s, opt);
  }

  /** Two clicks on an unchecked box give back the list as it was. */
  lemma ClickTwice(s: seq<string>, opt: string)
    requires opt !in s
    ensures Click(Click(Some(s), opt), opt) == Some(s)
  {
    assert IsChecked(Click(Some(s), opt), opt);
    UncheckUndoesCheck(s, opt);
  }

  /** Clicking keeps the list a duplicate-free choice among the options. */
  lemma ClickKeepsChoice(tags: Option<seq<string>>, opt: string)
    requires opt in Options
    requires tags.Some? ==> Seqs.NoDuplicates(tags.value) &&
                            forall i :: 0 <= i < |tags.value| ==> tags.value[i] in Options
    ensures var r := Click(tags, opt);
            r.Some? ==> Seqs.NoDuplicates(r.value) &&
                        forall i :: 0 <= i < |r.value| ==> r.value[i] in Options
  {
    if IsChecked(tags, opt) {
      Seqs.RemoveAllKeepsDistinct(tags.value, opt);
    } else {
      var s := tags.GetOr([]);
      var r := Check(tags, opt);
      assert r == s + [opt];
      assert opt !in s;
      forall i, j | 0 <= i < j < |r| ensures r[i] != r[j] {
        if j == |s| { assert r[i] == s[i]; } else { assert r[i] == s[i] && r[j] == s[j]; }
      }
    }
  }
}
