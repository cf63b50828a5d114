/** The guest-name autocomplete widget: the dropdown of suggestions, the
    keyboard selection in it, and the gate that keeps short queries from
    reaching the server. The server request, the timers and the DOM are left
    out; their outcomes are the parameters of the methods. */
module Autocomplete {
  import opened Common
  import opened Text

  /** One suggestion as rendered in the dropdown. */
  datatype Suggestion = Suggestion(id: string, displayName: string, bookingCount: int)

  const DefaultMinLength: nat := 2
  const DefaultLimit: nat := 10

  /** `options.x || default`: an absent or zero option takes the default. */
  function OrDefault(option: nat, default: nat): (r: nat)
    ensures option != 0 ==> r == option
    ensures option == 0 ==> r == default
  {
    if option != 0 then option else default
  }

  /** ArrowDown: the next item, wrapping from the last to the first; from
      no selection (-1) the first. */
  function NextDown(index: int, n: nat): (r: int)
    requires n > 0 && -1 <= index < n
    ensures 0 <= r < n
    ensures index < n - 1 ==> r == index + 1
    ensures index == n - 1 ==> r == 0
  {
    (index + 1) % n
  }

  /** ArrowUp: the previous item; from the first or from no selection the last. */
  function NextUp(index: int, n: nat): (r: int)
    requires n > 0 && -1 <= index < n
    ensures 0 <= r < n
    ensures index <= 0 ==> r == n - 1
    ensures 0 < index ==> r == index - 1
  {
    if index <= 0 then n - 1 else index - 1
  }

  /** Up undoes Down and Down undoes Up on a selected item. */
  lemma ArrowsInverse(index: int, n: nat)
    requires 0 <= index < n
    ensures NextUp(NextDown(index, n), n) == index
    ensures NextDown(NextUp(index, n), n) == index
  {
  }

  /** What a key press asks the widget to do. */
  datatype KeyEffect = NoEffect | Highlight(index: int) | Choose(item: Suggestion) | Close

  /** `handleKeyDown` as a function of the widget state. Keys are ignored
      while the dropdown is hidden, not created, or empty. */
  function KeyDown(visible: bool, created: bool, items: seq<Suggestion>, index: int, key: string): (e: KeyEffect)
    requires -1 <= index < |items|
    ensures !visible || !created || items == [] ==> e == NoEffect
    ensures e.Highlight? ==> 0 <= e.index < |items|
    ensures e.Choose? ==> 0 <= index < |items| && e.item == items[index] && key == "Enter"
  {
    if !visible || !created || items == [] then NoEffect
    else if key == "ArrowDown" then Highlight(NextDown(index, |items|))
    else if key == "ArrowUp" then Highlight(NextUp(index, |items|))
    else if key == "Enter" then
      if 0 <= index < |items| then Choose(items[index]) else NoEffect
    else if key == "Escape" then Close
    else NoEffect
  }

  /** Enter picks the highlighted item, and nothing without one. */
  lemma EnterChoosesHighlighted(items: seq<Suggestion>, index: int)
    requires -1 <= index < |items|
    ensures KeyDown(true, true, items, index, "Enter") == if index >= 0 then Choose(items[index]) else NoEffect
  {
    assert "Enter" != "ArrowDown" && "Enter" != "ArrowUp";
  }

  class Widget {
    const minLength: nat
    const limit: nat
    var created: bool
    var visible: bool
    var items: seq<Suggestion>
    var selectedIndex: int
    var suggestions: seq<Suggestion>
    var value: string
    var guestId: Option<string>

    /** The selection always points into the rendered items or nowhere, and
        a visible dropdown exists. */
    predicate Valid()
      reads this
    {
      minLength >= 1 && -1 <= selectedIndex < |items| && (visible ==> created)
    }

    /** `initGuestAutocomplete` with the given options (0 for an absent one). */
    constructor(minLengthOption: nat, limitOption: nat, value: string)
      ensures Valid()
      ensures minLength == OrDefault(minLengthOption, DefaultMinLength) && limit == OrDefault(limitOption, DefaultLimit)
      ensures !created && !visible && items == [] && selectedIndex == -1 && suggestions == []
      ensures this.value == value && guestId.None?
    {
      minLength := OrDefault(minLengthOption, DefaultMinLength);
      limit := OrDefault(limitOption, DefaultLimit);
      created := false;
      visible := false;
      items := [];
      selectedIndex := -1;
      suggestions := [];
      this.value := value;
      guestId := None;
    }

    /** `hideDropdown`. */
    method HideDropdown()
      requires Valid()
      modifies this`visible, this`selectedIndex
      ensures Valid() && !visible && selectedIndex == -1
    {
      visible := false;
      selectedIndex := -1;
    }

    /** `showSuggestions`: an empty list hides the dropdown; otherwise the
      dropdown is created when missing and filled, and nothing is selected.
      It becomes visible when its timer fires (`Reveal`). */
    method ShowSuggestions(list: seq<Suggestion>)
      requires Valid()
      modifies this`visible, this`selectedIndex, this`items, this`created
      ensures Valid() && selectedIndex == -1
      ensures list == [] ==> !visible && items == old(items) && created == old(created)
      ensures list != [] ==> created && items == list && visible == old(visible)
    {
      if list == [] {
        HideDropdown();
        return;
      }
      created := true;
      items := list;
      selectedIndex := -1;
    }

    /** The timer of `showSuggestions`: the filled dropdown is shown. */
    method Reveal()
      requires Valid() && created
      modifies this`visible
      ensures Valid() && visible
    {
      visible := true;
    }

    /** `fetchSuggestions`: a query shorter than the minimum hides the
      dropdown and sends nothing; otherwise the query is sent. */
    method FetchSuggestions(query: string) returns (sent: Option<string>)
      requires Valid()
      modifies this`visible, this`selectedIndex
      ensures Valid()
      ensures Utf16Length(query) < minLength ==> sent.None? && !visible && selectedIndex == -1
      ensures Utf16Length(query) >= minLength ==> sent == Some(query) && visible == old(visible) && selectedIndex == old(selectedIndex)
    {
      if Utf16Length(query) < minLength {
        HideDropdown();
        return None;
      }
      return Some(query);
    }

    /** The answer to a sent query: a failed request (None) or an empty list
      hides the dropdown; a non-empty list is shown. */
    method ReceiveSuggestions(response: Option<seq<Suggestion>>)
      requires Valid()
      modifies this`suggestions, this`visible, this`selectedIndex, this`items, this`created
      ensures Valid() && selectedIndex == -1
      ensures response.None? ==> suggestions == old(suggestions) && !visible && items == old(items)
      ensures response.Some? ==> suggestions == response.value
      ensures response.Some? && response.value == [] ==> !visible && items == old(items)
      ensures response.Some? && response.value != [] ==> created && items == response.value
    {
      if response.None? {
        HideDropdown();
        return;
      }
      suggestions := response.value;
      if |suggestions| > 0 {
        ShowSuggestions(suggestions);
      } else {
        HideDropdown();
      }
    }

    /** The debounce timer of `handleInput`: the trimmed text is fetched when
      long enough, and the dropdown hidden otherwise. */
    method HandleInput() returns (sent: Option<string>)
      requires Valid()
      modifies this`visible, this`selectedIndex
      ensures Valid()
      ensures sent.Some? <==> Utf16Length(Trim(value, JavaScript)) >= minLength
      ensures sent.Some? ==> sent.value == Trim(value, JavaScript)
      ensures sent.None? ==> !visible && selectedIndex == -1
    {
      var query := Trim(value, JavaScript);
      if Utf16Length(query) >= minLength {
        sent := FetchSuggestions(query);
      } else {
        HideDropdown();
        sent := None;
      }
    }

    /** `handleFocus`, and the input's click listener, which does the same:
      the trimmed text is fetched when long enough, and nothing happens
      otherwise. */
    method HandleFocus() returns (sent: Option<string>)
      requires Valid()
      modifies this`visible, this`selectedIndex
      ensures Valid()
      ensures sent.Some? <==> Utf16Length(Trim(value, JavaScript)) >= minLength
      ensures sent.Some? ==> sent.value == Trim(value, JavaScript)
      ensures visible == old(visible) && selectedIndex == old(selectedIndex)
    {
      var query := Trim(value, JavaScript);
      if Utf16Length(query) >= minLength {
        sent := FetchSuggestions(query);
      } else {
        sent := None;
      }
    }

    /** `selectGuest`: the input takes the guest's name and key, and the
      dropdown closes. */
    method SelectGuest(guest: Suggestion)
      requires Valid()
      modifies this`value, this`guestId, this`visible, this`selectedIndex
      ensures Valid() && value == guest.displayName && guestId == Some(guest.id)
      ensures !visible && selectedIndex == -1
    {
      value := guest.displayName;
      guestId := Some(guest.id);
      HideDropdown();
    }

    /** `highlightItem` on pointer entry of a rendered item. */
    method HighlightItem(index: int)
      requires Valid() && 0 <= index < |items|
      modifies this`selectedIndex
      ensures Valid() && selectedIndex == index
    {
      selectedIndex := index;
    }

    /** `handleKeyDown`: the key's effect on the widget. */
    method HandleKeyDown(key: string) returns (effect: KeyEffect)
      requires Valid()
      modifies this`selectedIndex, this`visible, this`value, this`guestId
      ensures Valid()
      ensures effect == KeyDown(old(visible), created, items, old(selectedIndex), key)
      ensures effect == NoEffect ==> (visible == old(visible) && selectedIndex == old(selectedIndex)
        && value == old(value) && guestId == old(guestId))
      ensures effect.Highlight? ==> selectedIndex == effect.index && visible && value == old(value) && guestId == old(guestId)
      ensures effect.Choose? ==> (value == effect.item.displayName && guestId == Some(effect.item.id)
        && !visible && selectedIndex == -1)
      ensures effect == Close ==> !visible && selectedIndex == -1 && value == old(value) && guestId == old(guestId)
    {
      effect := KeyDown(visible, created, items, selectedIndex, key);
      if !visible || !created || |items| == 0 {
        return;
      }
      if key == "ArrowDown" {
        selectedIndex := (selectedIndex + 1) % |items|;
      } else if key == "ArrowUp" {
        selectedIndex := if selectedIndex <= 0 then |items| - 1 else selectedIndex - 1;
      } else if key == "Enter" {
        if selectedIndex >= 0 && selectedIndex < |items| {
          SelectGuest(items[selectedIndex]);
        }
      } else if key == "Escape" {
        HideDropdown();
      }
    }

    /** `handleClickOutside`: a click outside both the input and the
      dropdown closes an existing dropdown. */
    method HandleClickOutside(insideInput: bool, insideDropdown: bool)
      requires Valid()
      modifies this`visible, this`selectedIndex
      ensures Valid()
      ensures created && !insideInput && !insideDropdown ==> !visible && selectedIndex == -1
      ensures !(created && !insideInput && !insideDropdown) ==> visible == old(visible) && selectedIndex == old(selectedIndex)
    {
      if created && !insideInput && !insideDropdown {
        HideDropdown();
      }
    }
  }
}
