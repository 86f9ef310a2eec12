/**
 The top bar's search box: whether the input is shown, its text, and the
 calls it makes to the `onSearch` and `onClearSearch` props.
 */
module Navbar {
  import opened Js

  /** A handler either runs to completion or throws the TypeError of calling a
      prop that was not passed. */
  datatype Outcome = Completed | TypeError

  /** What Enter submits: the trimmed text, when anything but white space is left. */
  function SearchRequest(inputValue: string): (r: Option<string>)
    ensures r.Some? <==> exists i :: 0 <= i < |inputValue| && !IsWhiteSpace(inputValue[i])
    ensures r.Some? ==> r.value == Trim(inputValue) && r.value != ""
    ensures r.Some? ==> !IsWhiteSpace(r.value[0]) && !IsWhiteSpace(r.value[|r.value| - 1])
  {
    var t := Trim(inputValue);
    if t != "" then Some(t) else None
  }

  class TopNavbar {
    /** Whether the `onSearch` and `onClearSearch` props were passed. */
    const hasOnSearch: bool
    const hasOnClearSearch: bool
    var showSearchInput: bool
    var inputValue: string
    /** The arguments of the `onSearch` calls, oldest first. */
    var searches: seq<string>
    /** How many times `onClearSearch` has been called. */
    var clearCalls: nat

    constructor (hasOnSearch: bool, hasOnClearSearch: bool)
      ensures this.hasOnSearch == hasOnSearch && this.hasOnClearSearch == hasOnClearSearch
      ensures !showSearchInput && inputValue == "" && searches == [] && clearCalls == 0
    {
      this.hasOnSearch := hasOnSearch;
      this.hasOnClearSearch := hasOnClearSearch;
      showSearchInput := false;
      inputValue := "";
      searches := [];
      clearCalls := 0;
    }

    /** The effect on a new `searchQuery` prop: a truthy query fills and opens the
        input, a falsy one changes nothing. */
    method SyncSearchQuery(searchQuery: Option<string>)
      modifies this
      ensures Truthy(searchQuery) ==> inputValue == searchQuery.value && showSearchInput
      ensures !Truthy(searchQuery) ==> inputValue == old(inputValue) && showSearchInput == old(showSearchInput)
      ensures searches == old(searches) && clearCalls == old(clearCalls)
    {
      if searchQuery.Some? && searchQuery.value != "" {
        inputValue := searchQuery.value;
        showSearchInput := true;
      }
    }

    method SearchClick()
      modifies this
      ensures showSearchInput && inputValue == old(inputValue)
      ensures searches == old(searches) && clearCalls == old(clearCalls)
    {
      showSearchInput := true;
    }

    method InputChange(value: string)
      modifies this
      ensures inputValue == value && showSearchInput == old(showSearchInput)
      ensures searches == old(searches) && clearCalls == old(clearCalls)
    {
      inputValue := value;
    }

    /** `handleCloseSearch`: hides and clears the input, then calls
        `onClearSearch` if it was passed. */
    method CloseSearch()
      modifies this
      ensures !showSearchInput && inputValue == ""
      ensures searches == old(searches)
      ensures clearCalls == old(clearCalls) + (if hasOnClearSearch then 1 else 0)
    {
      showSearchInput := false;
      inputValue := "";
      if hasOnClearSearch {
        clearCalls := clearCalls + 1;
      }
    }

    /** `handleKeyDown`: Enter submits the trimmed text once when some is left,
        which throws when `onSearch` was not passed; Escape closes the search;
        every other key does nothing. */
    method KeyDown(key: string) returns (outcome: Outcome)
      modifies this
      ensures key == "Enter" ==>
                showSearchInput == old(showSearchInput) && inputValue == old(inputValue) &&
                clearCalls == old(clearCalls) &&
                match SearchRequest(old(inputValue))
                case None => outcome == Completed && searches == old(searches)
                case Some(q) =>
                  if hasOnSearch then outcome == Completed && searches == old(searches) + [q]
                  else outcome == TypeError && searches == old(searches)
      ensures key == "Escape" ==>
                outcome == Completed && !showSearchInput && inputValue == "" &&
                searches == old(searches) &&
                clearCalls == old(clearCalls) + (if hasOnClearSearch then 1 else 0)
      ensures key != "Enter" && key != "Escape" ==>
                outcome == Completed && showSearchInput == old(showSearchInput) &&
                inputValue == old(inputValue) && searches == old(searches) && clearCalls == old(clearCalls)
    {
      outcome := Completed;
      if key == "Enter" {
        var trimmed := Trim(inputValue);
        if trimmed != "" {
          if hasOnSearch {
            searches := searches + [trimmed];
          } else {
            outcome := TypeError;
          }
        }
      } else if key == "Escape" {
        CloseSearch();
      }
    }
  }
}
