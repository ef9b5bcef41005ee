/** The search form (components/SearchForm.tsx): the city field, the
    number-of-centers select, the specialty picker, the "Search" and
    "Or Near Me" buttons and the handlers behind them. The component's state
    hooks are the fields of a `SearchForm` object; its props (`loading`,
    `isLocationAvailable`) are parameters; a call of `onSearch` is returned as
    a `SearchCall`. */
module SearchFormComponent {
  import opened Wrappers
  import opened Text
  import opened SpecialtySelector

  /** The arguments of one `onSearch` call. */
  datatype SearchCall = SearchCall(city: string, numberOfCenters: string, specialties: seq<string>)

  /** The values the number-of-centers select offers. */
  const CountOptions: seq<string> := ["5", "10"]

  /** The specialties ticked when the form first renders. */
  const DefaultSpecialties: seq<string> := ["Urologists", "Cardiologists", "Diabetologists"]

  /** What submitting the form does: search the trimmed city when it is not
      blank and some specialty is ticked, otherwise nothing. */
  function SubmitCall(city: string, numberOfCenters: string, selected: seq<string>): (call: Option<SearchCall>)
    ensures call.Some? <==> !AllSpace(city) && |selected| > 0
    ensures call.Some? ==> call.value.numberOfCenters == numberOfCenters && call.value.specialties == selected
  {
    TrimEmptyIff(city);
    if Trim(city) != "" && |selected| > 0 then Some(SearchCall(Trim(city), numberOfCenters, selected)) else None
  }

  /** The city searched on submit is the typed text without surrounding
      whitespace: a non-empty piece of it that neither starts nor ends with
      whitespace, with only whitespace around it. */
  lemma SubmittedCityIsTrimmed(city: string, numberOfCenters: string, selected: seq<string>)
    requires SubmitCall(city, numberOfCenters, selected).Some?
    ensures var c := SubmitCall(city, numberOfCenters, selected).value.city;
            var k := TrimStart(city);
            && c != [] && !IsSpace(c[0]) && !IsSpace(c[|c| - 1])
            && k + |c| <= |city| && city[k..k + |c|] == c
            && AllSpace(city[..k]) && AllSpace(city[k + |c|..])
  {
    TrimEmptyIff(city);
  }

  /** What "Or Near Me" does: when the location is available and some
      specialty is ticked, clear the city and search around the user. */
  function LocationCall(isLocationAvailable: bool, numberOfCenters: string, selected: seq<string>): (call: Option<SearchCall>)
    ensures call.Some? <==> isLocationAvailable && |selected| > 0
    ensures call.Some? ==> call.value == SearchCall("", numberOfCenters, selected)
  {
    if isLocationAvailable && |selected| > 0 then Some(SearchCall("", numberOfCenters, selected)) else None
  }

  /** The `disabled` attribute of the "Search" button: disabled during a
      search, for a city of whitespace only, or with nothing ticked. */
  predicate SubmitDisabled(loading: bool, city: string, selected: seq<string>): (disabled: bool)
    ensures disabled <==> loading || AllSpace(city) || |selected| == 0
  {
    TrimEmptyIff(city);
    loading || Trim(city) == "" || |selected| == 0
  }

  /** The `disabled` attribute of the "Or Near Me" button: always disabled
      during a search; outside one, disabled exactly when pressing it would
      search for no count at all. */
  predicate NearMeDisabled(loading: bool, isLocationAvailable: bool, selected: seq<string>): (disabled: bool)
    ensures loading ==> disabled
    ensures !loading ==> (disabled <==> forall n :: LocationCall(isLocationAvailable, n, selected).None?)
  {
    assert isLocationAvailable && |selected| > 0 ==> LocationCall(isLocationAvailable, "", selected).Some?;
    loading || !isLocationAvailable || |selected| == 0
  }

  /** Outside a search, the "Search" button is enabled exactly when pressing
      it would start a search. */
  lemma SubmitButtonAgreesWithHandler(city: string, numberOfCenters: string, selected: seq<string>)
    ensures !SubmitDisabled(false, city, selected) <==> SubmitCall(city, numberOfCenters, selected).Some?
  {
    TrimEmptyIff(city);
  }

  /** Outside a search, the "Or Near Me" button is enabled exactly when
      pressing it would start a search. */
  lemma NearMeButtonAgreesWithHandler(isLocationAvailable: bool, numberOfCenters: string, selected: seq<string>)
    ensures !NearMeDisabled(false, isLocationAvailable, selected) <==> LocationCall(isLocationAvailable, numberOfCenters, selected).Some?
  {
  }

  /** The form's state: the typed city, the chosen count and the ticked specialties. */
  class SearchForm {
    var city: string
    var numberOfCenters: string
    var selectedSpecialties: seq<string>

    /** The count is one the select offers, and the selection is a list of
        catalogue entries without repeats. */
    predicate Valid()
      reads this
    {
      && numberOfCenters in CountOptions
      && Distinct(selectedSpecialties)
      && forall s :: s in selectedSpecialties ==> s in AllSpecialties
    }

    /** The initial state: empty city, top 5, three specialties ticked. */
    constructor ()
      ensures city == "" && numberOfCenters == "5" && selectedSpecialties == DefaultSpecialties
      ensures Valid()
    {
      city := "";
      numberOfCenters := "5";
      selectedSpecialties := DefaultSpecialties;
      assert AllSpecialties[0] == "Urologists" && AllSpecialties[1] == "Cardiologists" && AllSpecialties[2] == "Diabetologists";
    }

    /** Typing in the city field. */
    method SetCity(value: string)
      modifies this
      ensures city == value
      ensures numberOfCenters == old(numberOfCenters) && selectedSpecialties == old(selectedSpecialties)
      ensures old(Valid()) ==> Valid()
    {
      city := value;
    }

    /** Picking an option of the select. */
    method SetNumberOfCenters(value: string)
      requires value in CountOptions
      modifies this
      ensures numberOfCenters == value
      ensures city == old(city) && selectedSpecialties == old(selectedSpecialties)
      ensures old(Valid()) ==> Valid()
    {
      numberOfCenters := value;
    }

    /** The picker's `onChange`, fed by `handleToggle` on a catalogue entry. */
    method ToggleSpecialty(specialty: string)
      requires specialty in AllSpecialties
      modifies this
      ensures selectedSpecialties == Toggle(old(selectedSpecialties), specialty)
      ensures city == old(city) && numberOfCenters == old(numberOfCenters)
      ensures old(Valid()) ==> Valid()
    {
      if Valid() {
        ToggleKeepsDistinct(selectedSpecialties, specialty);
      }
      selectedSpecialties := Toggle(selectedSpecialties, specialty);
    }

    /** `handleSubmit`: reads the state and leaves it as it is. */
    method HandleSubmit() returns (call: Option<SearchCall>)
      ensures call == SubmitCall(city, numberOfCenters, selectedSpecialties)
      ensures Valid() && call.Some? ==>
                call.value.numberOfCenters in CountOptions && Distinct(call.value.specialties)
                && forall s :: s in call.value.specialties ==> s in AllSpecialties
    {
      call := SubmitCall(city, numberOfCenters, selectedSpecialties);
    }

    /** `handleLocationSearch`: clears the city when it searches. */
    method HandleLocationSearch(isLocationAvailable: bool) returns (call: Option<SearchCall>)
      modifies this
      ensures call == LocationCall(isLocationAvailable, old(numberOfCenters), old(selectedSpecialties))
      ensures city == (if call.Some? then "" else old(city))
      ensures numberOfCenters == old(numberOfCenters) && selectedSpecialties == old(selectedSpecialties)
      ensures old(Valid()) ==> Valid()
    {
      if isLocationAvailable && |selectedSpecialties| > 0 {
        city := "";
        call := Some(SearchCall("", numberOfCenters, selectedSpecialties));
      } else {
        call := None;
      }
    }
  }
}
