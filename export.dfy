/** The submit handler that exports the card as an image (app/apply/page.tsx,
    `onSubmit`): mark the card `screenshot-safe`, capture it, then remove
    the mark whether the capture succeeded or threw. The rasteriser, the
    download and the toasts are outside calls; the model takes the
    capture's outcome as a parameter and records the calls as events. */
module Export {
  import Seqs

  const ScreenshotSafe: string := "screenshot-safe"
  const FileName: string := "minigameshd-bewerbung.png"

  /** How `html2canvas(...)` followed by `toDataURL` ends. */
  datatype CaptureOutcome = Rendered | Threw

  /** What the handler does that can be observed from outside. */
  datatype Event =
    | ClassAdded(token: string)
    | Captured(classes: seq<string>)  // the card's classes as the capture sees them
    | Downloaded(fileName: string)    // the anchor click
    | SuccessToast                    // "Screenshot erstellt!"
    | ErrorToast                      // "Screenshot fehlgeschlagen"
    | ClassRemoved(token: string)

  /** `classList.add(t)`: a token already present is not added again. */
  function AddToken(tokens: seq<string>, t: string): (r: seq<string>)
    ensures t in r
    ensures |r| == if t in tokens then |tokens| else |tokens| + 1
    ensures forall i :: 0 <= i < |tokens| ==> r[i] == tokens[i]
    ensures forall i :: 0 <= i < |r| ==> r[i] in tokens || r[i] == t
    ensures Seqs.NoDuplicates(tokens) ==> Seqs.NoDuplicates(r)
  {
    if t in tokens then tokens
    else
      var r := tokens + [t];
      assert forall i :: 0 <= i < |tokens| ==> r[i] == tokens[i];
      r
  }

  /** `classList.remove(t)`. */
  function RemoveToken(tokens: seq<string>, t: string): (r: seq<string>)
    ensures t !in r
    ensures Seqs.NoDuplicates(tokens) ==> Seqs.NoDuplicates(r)
  {
    if Seqs.NoDuplicates(tokens) then
      Seqs.RemoveAllKeepsDistinct(tokens, t);
      Seqs.RemoveAll(tokens, t)
    else
      Seqs.RemoveAll(tokens, t)
  }

  /** The events of one run of the handler on a card with `classes`. */
  function Trace(classes: seq<string>, outcome: CaptureOutcome): (r: seq<Event>)
    ensures |r| == if outcome == Rendered then 5 else 4
    ensures r[0] == ClassAdded(ScreenshotSafe) && r[|r| - 1] == ClassRemoved(ScreenshotSafe)
  {
    [ClassAdded(ScreenshotSafe), Captured(AddToken(classes, ScreenshotSafe))] +
    (match outcome
     case Rendered => [Downloaded(FileName), SuccessToast]
     case Threw => [ErrorToast]) +
    [ClassRemoved(ScreenshotSafe)]
  }

  /** The card whose `classList` the handler changes in place. A class
      list is an ordered set: it never holds a token twice. */
  class Card {
    var classes: seq<string>

    ghost predicate Valid()
      reads this
    {
      Seqs.NoDuplicates(classes)
    }

    constructor (classes: seq<string>)
      requires Seqs.NoDuplicates(classes)
      ensures Valid() && this.classes == classes
    {
      this.classes := classes;
    }

    method AddClass(t: string)
      requires Valid()
      modifies this
      ensures Valid()
      ensures classes == AddToken(old(classes), t)
    {
      if t !in classes {
        classes := classes + [t];
      }
    }

    method RemoveClass(t: string)
      requires Valid()
      modifies this
      ensures Valid()
      ensures classes == RemoveToken(old(classes), t)
    {
      classes := RemoveToken(classes, t);
    }
  }

  /** The submit handler. `card` is `cardRef.current`; `outcome` is how the
      capture ends. */
  method OnSubmit(card: Card?, outcome: CaptureOutcome) returns (events: seq<Event>)
    requires card != null ==> card.Valid()
    modifies card
    ensures card != null ==> card.Valid()
    ensures card == null ==> events == []
    ensures card != null ==> events == Trace(old(card.classes), outcome)
    ensures card != null ==> card.classes == RemoveToken(old(card.classes), ScreenshotSafe)
  {
    if card == null {
      return [];
    }
    card.AddClass(ScreenshotSafe);
    events := [ClassAdded(ScreenshotSafe)];
    // try
    events := events + [Captured(card.classes)];
    match outcome {
      case Rendered =>
        events := events + [Downloaded(FileName), SuccessToast];
      case Threw =>
        // catch
        events := events + [ErrorToast];
    }
    // finally
    card.RemoveClass(ScreenshotSafe);
    events := events + [ClassRemoved(ScreenshotSafe)];
    RemoveAfterAdd(old(card.classes), ScreenshotSafe);
  }

  /* ---------------- properties ---------------- */

  /** Adding then removing a token is removing it. */
  lemma RemoveAfterAdd(tokens: seq<string>, t: string)
    ensures RemoveToken(AddToken(tokens, t), t) == RemoveToken(tokens, t)
  {
    if t !in tokens {
      Seqs.RemoveAllConcat(tokens, [t], t);
      assert [t][1..] == [];
      assert Seqs.RemoveAll([t], t) == [];
      assert Seqs.RemoveAll(tokens, t) + [] == Seqs.RemoveAll(tokens, t);
    }
  }

  /** The capture always sees the card marked `screenshot-safe`. */
  lemma CaptureSeesMark(classes: seq<string>, outcome: CaptureOutcome)
    ensures Trace(classes, outcome)[1].Captured?
    ensures ScreenshotSafe in Trace(classes, outcome)[1].classes
  {
  }

  /** The mark is removed exactly once, as the last thing the handler does,
      on both outcomes, and added exactly once, as the first. */
  lemma MarkRemovedOnce(classes: seq<string>, outcome: CaptureOutcome)
    ensures var tr := Trace(classes, outcome);
            tr[0] == ClassAdded(ScreenshotSafe) && tr[|tr| - 1] == ClassRemoved(ScreenshotSafe) &&
            multiset(tr)[ClassRemoved(ScreenshotSafe)] == 1 &&
            multiset(tr)[ClassAdded(ScreenshotSafe)] == 1
  {
  }

  /** The download of the fixed file and the success toast happen exactly
      when the capture succeeds, the error toast exactly when it throws. */
  lemma OutcomeEvents(classes: seq<string>, outcome: CaptureOutcome)
    ensures Downloaded(FileName) in Trace(classes, outcome) <==> outcome == Rendered
    ensures SuccessToast in Trace(classes, outcome) <==> outcome == Rendered
    ensures ErrorToast in Trace(classes, outcome) <==> outcome == Threw
    ensures forall i :: 0 <= i < |Trace(classes, outcome)| && Trace(classes, outcome)[i].Downloaded? ==>
                          Trace(classes, outcome)[i].fileName == FileName
  {
  }

  /** Afterwards no class but the mark has changed: the others keep their
      order and number, and a card that was not marked before ends with
      exactly the classes it had. */
  lemma OtherClassesUnchanged(classes: seq<string>, other: string)
    requires other != ScreenshotSafe
    ensures var after := RemoveToken(AddToken(classes, ScreenshotSafe), ScreenshotSafe);
            ScreenshotSafe !in after &&
            Seqs.SubsequenceOf(after, classes) &&
            multiset(after)[other] == multiset(classes)[other] &&
            (Seqs.NoDuplicates(classes) ==> Seqs.NoDuplicates(after)) &&
            (ScreenshotSafe !in classes ==> after == classes)
  {
    RemoveAfterAdd(classes, ScreenshotSafe);
    Seqs.RemoveAllIsSubsequence(classes, ScreenshotSafe);
    Seqs.RemoveAllCounts(classes, ScreenshotSafe);
  }
}
