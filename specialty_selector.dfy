/** The specialty picker (components/SpecialtySelector.tsx): a fixed catalogue
    of thirteen specialties shown as checkboxes, a toggle that removes a
    checked specialty or appends an unchecked one, and the summary label. */
module SpecialtySelector {
  import opened Text

  /** The catalogue, in display order. */
  const AllSpecialties: seq<string> := [
    "Urologists", "Cardiologists", "Diabetologists", "Neurologists", "Dermatologists",
    "Gastroenterologists", "Oncologists", "Orthopedic Surgeons", "Pediatricians",
    "Psychiatrists", "Radiologists", "Ophthalmologists", "Endocrinologists"
  ]

  /** No element repeats. */
  predicate Distinct(xs: seq<string>) {
    forall i, j :: 0 <= i < j < |xs| ==> xs[i] != xs[j]
  }

  /** The catalogue lists thirteen different specialties. */
  lemma CatalogueHasThirteenDistinct()
    ensures |AllSpecialties| == 13 && Distinct(AllSpecialties)
  {
    var a := AllSpecialties;
    // the first two letters already tell the thirteen apart
    var heads := [
      ['U', 'r'], ['C', 'a'], ['D', 'i'], ['N', 'e'], ['D', 'e'], ['G', 'a'], ['O', 'n'],
      ['O', 'r'], ['P', 'e'], ['P', 's'], ['R', 'a'], ['O', 'p'], ['E', 'n']];
    forall i | 0 <= i < 13 ensures |a[i]| >= 2 && a[i][0] == heads[i][0] && a[i][1] == heads[i][1] {
    }
    forall i, j | 0 <= i < j < 13 ensures a[i] != a[j] {
      assert heads[i] != heads[j];
      assert a[i][0] != a[j][0] || a[i][1] != a[j][1];
    }
  }

  /** `selected.filter(s => s !== specialty)`. */
  function RemoveAll(xs: seq<string>, x: string): (r: seq<string>)
    ensures x !in r
    ensures forall y :: y != x ==> (y in r <==> y in xs)
    ensures multiset(r) == multiset(xs)[x := 0]
  {
    if xs == [] then []
    else
      var init := RemoveAll(xs[..|xs| - 1], x);
      var last := xs[|xs| - 1];
      assert xs == xs[..|xs| - 1] + [last];
      if last == x then init else init + [last]
  }

  /** Removing a value that is absent changes nothing. */
  lemma {:induction false} RemoveAbsent(xs: seq<string>, x: string)
    requires x !in xs
    ensures RemoveAll(xs, x) == xs
  {
    if xs != [] {
      RemoveAbsent(xs[..|xs| - 1], x);
      assert xs == xs[..|xs| - 1] + [xs[|xs| - 1]];
    }
  }

  /** Filtering a concatenation filters each part: the survivors of `a` stay
      ahead of the survivors of `b`. */
  lemma {:induction false} RemoveAllAppend(a: seq<string>, b: seq<string>, x: string)
    ensures RemoveAll(a + b, x) == RemoveAll(a, x) + RemoveAll(b, x)
    decreases |b|
  {
    if b == [] {
      assert a + b == a;
    } else {
      var b' := b[..|b| - 1];
      assert (a + b)[..|a + b| - 1] == a + b';
      RemoveAllAppend(a, b', x);
    }
  }

  /** On one element, filtering drops it when it is the value and keeps it otherwise. */
  lemma RemoveAllSingle(y: string, x: string)
    ensures RemoveAll([y], x) == if y == x then [] else [y]
  {
    assert [y][..0] == [];
  }

  /** Filtering keeps the other elements in their order: two survivors at
      positions `i < j` of `xs` appear in that order in the result, at the
      positions given by the survivors before them. */
  lemma RemoveKeepsOrder(xs: seq<string>, x: string, i: nat, j: nat)
    requires i < j < |xs| && xs[i] != x && xs[j] != x
    ensures var r := RemoveAll(xs, x);
            var p := |RemoveAll(xs[..i], x)|;
            var q := |RemoveAll(xs[..j], x)|;
            p < q < |r| && r[p] == xs[i] && r[q] == xs[j]
  {
    RemoveAt(xs, x, i);
    RemoveAt(xs, x, j);
    assert xs[..j] == xs[..i] + [xs[i]] + xs[i + 1..j];
    RemoveAllAppend(xs[..i] + [xs[i]], xs[i + 1..j], x);
    RemoveAllAppend(xs[..i], [xs[i]], x);
    RemoveAllSingle(xs[i], x);
  }

  /** A survivor at position `k` lands after the survivors before it. */
  lemma RemoveAt(xs: seq<string>, x: string, k: nat)
    requires k < |xs| && xs[k] != x
    ensures var r := RemoveAll(xs, x);
            var p := |RemoveAll(xs[..k], x)|;
            p < |r| && r[p] == xs[k]
  {
    assert xs == xs[..k] + [xs[k]] + xs[k + 1..];
    RemoveAllAppend(xs[..k] + [xs[k]], xs[k + 1..], x);
    RemoveAllAppend(xs[..k], [xs[k]], x);
    RemoveAllSingle(xs[k], x);
  }

  /** Filtering introduces no repeats. */
  lemma {:induction false} RemoveKeepsDistinct(xs: seq<string>, x: string)
    requires Distinct(xs)
    ensures Distinct(RemoveAll(xs, x))
  {
    if xs != [] {
      var init := xs[..|xs| - 1];
      var last := xs[|xs| - 1];
      assert Distinct(init);
      RemoveKeepsDistinct(init, x);
      assert last !in init;
      var r := RemoveAll(init, x);
      if last != x {
        assert last !in r;
        assert r + [last] == RemoveAll(xs, x);
      }
    }
  }

  /** Filtering the appended value out again leaves what was there before it. */
  lemma RemoveAfterAppend(xs: seq<string>, x: string)
    ensures RemoveAll(xs + [x], x) == RemoveAll(xs, x)
  {
    assert (xs + [x])[..|xs|] == xs;
  }

  /** `handleToggle`: a checked specialty is removed (every copy of it); an
      unchecked one is appended at the end. */
  function Toggle(selected: seq<string>, specialty: string): (r: seq<string>)
    ensures specialty in r <==> specialty !in selected
    ensures forall y :: y != specialty ==> (y in r <==> y in selected)
    ensures specialty !in selected ==> |r| == |selected| + 1 && r[..|selected|] == selected && r[|selected|] == specialty
  {
    if specialty in selected then RemoveAll(selected, specialty) else selected + [specialty]
  }

  /** The checkbox of `specialty` is ticked (`selected.includes(specialty)`). */
  predicate IsChecked(selected: seq<string>, specialty: string) {
    specialty in selected
  }

  /** Toggling flips the toggled checkbox and leaves every other checkbox as it was. */
  lemma ToggleMembership(selected: seq<string>, specialty: string, other: string)
    ensures IsChecked(Toggle(selected, specialty), specialty) <==> !IsChecked(selected, specialty)
    ensures other != specialty ==> (IsChecked(Toggle(selected, specialty), other) <==> IsChecked(selected, other))
  {
  }

  /** Ticking an unticked specialty and unticking it again restores the selection. */
  lemma ToggleTwiceRestores(selected: seq<string>, specialty: string)
    requires specialty !in selected
    ensures Toggle(Toggle(selected, specialty), specialty) == selected
  {
    RemoveAfterAppend(selected, specialty);
    RemoveAbsent(selected, specialty);
  }

  /** Unticking a ticked specialty and ticking it again moves it to the end:
      the order of a selection records the order of the last ticks. */
  lemma RetickMovesToEnd(selected: seq<string>, specialty: string)
    requires specialty in selected
    ensures Toggle(Toggle(selected, specialty), specialty) == RemoveAll(selected, specialty) + [specialty]
  {
  }

  /** A selection without repeats stays without repeats. */
  lemma ToggleKeepsDistinct(selected: seq<string>, specialty: string)
    requires Distinct(selected)
    ensures Distinct(Toggle(selected, specialty))
  {
    if specialty in selected {
      RemoveKeepsDistinct(selected, specialty);
    }
  }

  /** Toggling a catalogue entry keeps a selection inside the catalogue. */
  lemma ToggleStaysInCatalogue(selected: seq<string>, specialty: string)
    requires forall s :: s in selected ==> s in AllSpecialties
    requires specialty in AllSpecialties
    ensures forall s :: s in Toggle(selected, specialty) ==> s in AllSpecialties
  {
  }

  /** Toggling changes the number of selected specialties by exactly one in a
      selection without repeats. */
  lemma ToggleCount(selected: seq<string>, specialty: string)
    requires Distinct(selected)
    ensures specialty !in selected ==> |Toggle(selected, specialty)| == |selected| + 1
    ensures specialty in selected ==> |Toggle(selected, specialty)| == |selected| - 1
  {
    if specialty in selected {
      var r := RemoveAll(selected, specialty);
      assert |multiset(r)| == |multiset(selected)| - multiset(selected)[specialty];
      CountOfDistinct(selected, specialty);
    }
  }

  /** A value occurs once in a sequence without repeats that holds it. */
  lemma {:induction false} CountOfDistinct(xs: seq<string>, x: string)
    requires Distinct(xs) && x in xs
    ensures multiset(xs)[x] == 1
  {
    var init := xs[..|xs| - 1];
    var last := xs[|xs| - 1];
    assert xs == init + [last];
    assert Distinct(init);
    if last == x {
      assert x !in init;
    } else {
      CountOfDistinct(init, x);
    }
  }

  /** The label on the picker's button: the placeholder exactly when nothing
      is selected, the singular for one, the plural with the count otherwise. */
  function SelectionLabel(selected: seq<string>): (caption: string)
    ensures caption == "Select specialties" <==> |selected| == 0
    ensures |selected| == 1 ==> caption == "1 specialty selected"
    ensures |selected| > 1 ==> caption == NatToString(|selected|) + " specialties selected"
  {
    if |selected| > 0 then
      var digits := NatToString(|selected|);
      var caption := digits + (if |selected| == 1 then " specialty selected" else " specialties selected");
      assert caption[0] == digits[0] && '0' <= digits[0] <= '9';
      caption
    else "Select specialties"
  }

  /** The label starts with the number of selected specialties in decimal and
      uses the singular exactly for one. */
  lemma SelectionLabelStatesCount(selected: seq<string>)
    requires |selected| > 0
    ensures var digits := NatToString(|selected|);
            var text := SelectionLabel(selected);
            && |digits| <= |text| && text[..|digits|] == digits
            && IsDecimal(digits) && DecimalValue(digits) == |selected|
  {
    NatToStringRoundTrip(|selected|);
    var digits := NatToString(|selected|);
    var tail := if |selected| == 1 then " specialty selected" else " specialties selected";
    assert SelectionLabel(selected) == digits + tail;
  }

  /** The singular is used exactly for one selected specialty. */
  lemma SelectionLabelSingularIff(selected: seq<string>)
    requires |selected| > 0
    ensures SelectionLabel(selected) == NatToString(|selected|) + " specialty selected" <==> |selected| == 1
  {
    var digits := NatToString(|selected|);
    if |selected| != 1 {
      assert |SelectionLabel(selected)| == |digits| + 21;
    }
  }
}
