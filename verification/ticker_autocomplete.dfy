/** The ticker picker of the web client: the suggestion filter applied to the
    list of popular tickers while the user types, and the change handler that
    hands the chosen value to the surrounding form. */
module TickerAutocomplete {
  import opened Seqs
  import opened Tickers

  /** An option is offered when its lower-case form contains the lower-cased
      input anywhere. */
  predicate Matches(option: string, input: string)
  {
    Contains(ToLower(option), ToLower(input))
  }

  /** The options that match, in list order. */
  function Matching(options: seq<string>, input: string): seq<string>
  {
    Filter(options, o => Matches(o, input))
  }

  /** `filterOptions`: the matching options in their original order; in
      free-solo mode a non-empty input whose upper-case form is not among them
      is offered as one more option, at the end. */
  function FilterOptions(options: seq<string>, input: string, freeSolo: bool): (r: seq<string>)
    ensures |r| <= |options| + 1
    ensures forall i :: 0 <= i < |r| ==> r[i] in options || r[i] == ToUpper(input)
    ensures forall o :: o in options ==> (o in r <==> Matches(o, input))
    ensures freeSolo && input != "" ==> ToUpper(input) in r
    ensures !freeSolo ==> forall i :: 0 <= i < |r| ==> r[i] in options
  {
    var filtered := Matching(options, input);
    var typed := ToUpper(input);
    if freeSolo && input != "" && typed !in filtered then
      UpperKeepsMatch(typed, input);
      filtered + [typed]
    else
      filtered
  }

  /** Lower-casing forgets an earlier upper-casing. */
  lemma LowerOfUpper(s: string)
    ensures ToLower(ToUpper(s)) == ToLower(s)
  {
  }

  /** Every string matches its own upper-case form. */
  lemma UpperKeepsMatch(option: string, input: string)
    requires option == ToUpper(input)
    ensures Matches(option, input)
  {
    LowerOfUpper(input);
    assert OccursAt(ToLower(option), ToLower(input), 0);
  }

  /** The empty input offers every option, unchanged and nothing more. */
  lemma EmptyInputKeepsAll(options: seq<string>, freeSolo: bool)
    ensures FilterOptions(options, "", freeSolo) == options
  {
    forall i | 0 <= i < |options|
      ensures Matches(options[i], "")
    {
      assert OccursAt(ToLower(options[i]), ToLower(""), 0);
    }
    FilterKeepsAll(options, o => Matches(o, ""));
  }

  /** The filter ignores the case of what was typed. */
  lemma InputCaseIgnored(options: seq<string>, input: string, freeSolo: bool)
    ensures FilterOptions(options, ToUpper(input), freeSolo) == FilterOptions(options, input, freeSolo)
  {
    LowerOfUpper(input);
    assert ToUpper(ToUpper(input)) == ToUpper(input);
    FilterAgree(options, o => Matches(o, ToUpper(input)), o => Matches(o, input));
  }

  /** Every listed option that matches is offered as often as the list holds
      it, and one that does not match is not offered: the popular list
      repeats AMZN, GLD, SLV, TLT and SHOP, so those are suggested twice. The
      typed text never adds a further copy of a listed option. */
  lemma MatchingKeepsRepeats(options: seq<string>, input: string, freeSolo: bool, o: string)
    requires o in options
    ensures multiset(FilterOptions(options, input, freeSolo))[o]
         == if Matches(o, input) then multiset(options)[o] else 0
  {
    var filtered := Matching(options, input);
    FilterMultiplicity(options, x => Matches(x, input), o);
    if freeSolo && input != "" && ToUpper(input) !in filtered {
      assert o != ToUpper(input) by {
        if o == ToUpper(input) {
          UpperKeepsMatch(o, input);
        }
      }
      assert multiset(filtered + [ToUpper(input)])[o] == multiset(filtered)[o];
    }
  }

  /** Typing `gld` with both GLD entries of the sorted popular list offers
      GLD twice and nothing else. */
  lemma RepeatedTickerOfferedTwice()
    ensures FilterOptions(["GLD", "GLD", "GOOG"], "gld", true) == ["GLD", "GLD"]
  {
    assert ToLower("GLD") == "gld";
    assert OccursAt(ToLower("GLD"), ToLower("gld"), 0);
    assert !Matches("GOOG", "gld") by {
      assert ToLower("GOOG") == "goog";
      assert ToLower("gld") == "gld";
      forall i | 0 <= i <= 1
        ensures !OccursAt("goog", "gld", i)
      {
        assert "goog"[i + 1] == 'o' != "gld"[1];
      }
    }
    assert Matching(["GLD", "GLD", "GOOG"], "gld") == ["GLD", "GLD"];
    assert ToUpper("gld") == "GLD";
  }

  /** Offered options never repeat when the option list has no repeats (the
      popular list itself has repeats, see MatchingKeepsRepeats): the typed
      text is appended only when it is not offered already. */
  lemma NoRepeatedSuggestions(options: seq<string>, input: string, freeSolo: bool)
    requires NoDuplicates(options)
    ensures NoDuplicates(FilterOptions(options, input, freeSolo))
  {
    FilterNoDuplicates(options, o => Matches(o, input));
  }

  /** Suggestions keep the list's order: the matching options come first, in
      the order the list gives them. */
  lemma SuggestionsInListOrder(options: seq<string>, more: seq<string>, input: string, freeSolo: bool)
    ensures var r := FilterOptions(options + more, input, freeSolo);
      |Matching(options, input)| <= |r| && r[..|Matching(options, input)|] == Matching(options, input)
  {
    FilterAppend(options, more, o => Matches(o, input));
  }

  /** What the picker hands to the form: nothing chosen, a single text, or the
      list of chosen tickers. */
  datatype Value = Nothing | Text(text: string) | Chosen(tickers: seq<string>)

  /** `handleChange`: in multiple mode the new value is passed on as it is;
      in single mode a falsy value (nothing, or the empty text) becomes "". */
  function HandleChange(multiple: bool, newValue: Value): (r: Value)
    ensures multiple ==> r == newValue
    ensures !multiple ==> !r.Nothing?
    ensures !multiple && newValue.Nothing? ==> r == Text("")
    ensures !multiple && !newValue.Nothing? ==> r == newValue
  {
    if multiple then newValue
    else if newValue.Nothing? || newValue == Text("") then Text("")
    else newValue
  }

  /** Handing the handled value on once more changes nothing, so a value that
      comes back round from the form is stable. */
  lemma HandleChangeIdempotent(multiple: bool, newValue: Value)
    ensures HandleChange(multiple, HandleChange(multiple, newValue)) == HandleChange(multiple, newValue)
  {
  }
}
