/** The search box of the client: when a query runs or is cleared, and the
    escaping of the query for the highlighting regular expression. */
module Search {
  import opened Text

  /** The characters the class `[.*+?^${}()|[\]\\]` matches. */
  predicate IsRegExpSpecial(c: char) {
    c == '.' || c == '*' || c == '+' || c == '?' || c == '^' || c == '$' || c == '{' || c == '}'
    || c == '(' || c == ')' || c == '|' || c == '[' || c == ']' || c == '\\'
  }

  function CountSpecial(s: string): nat
  {
    if s == [] then 0 else (if IsRegExpSpecial(s[0]) then 1 else 0) + CountSpecial(s[1..])
  }

  /** `escapeRegExp`: a backslash goes before every special character;
      every other character is copied. */
  function EscapeRegExp(s: string): (r: string)
    ensures |r| == |s| + CountSpecial(s)
  {
    if s == [] then []
    else (if IsRegExpSpecial(s[0]) then ['\\', s[0]] else [s[0]]) + EscapeRegExp(s[1..])
  }

  /** Drops the backslash in front of each escaped special character. */
  function Unescape(r: string): string
  {
    if r == [] then []
    else if |r| >= 2 && r[0] == '\\' && IsRegExpSpecial(r[1]) then [r[1]] + Unescape(r[2..])
    else [r[0]] + Unescape(r[1..])
  }

  /** Removing the inserted backslashes gives back the query. */
  lemma {:induction false} UnescapeEscape(s: string)
    ensures Unescape(EscapeRegExp(s)) == s
  {
    if s != [] {
      var head := if IsRegExpSpecial(s[0]) then ['\\', s[0]] else [s[0]];
      assert EscapeRegExp(s) == head + EscapeRegExp(s[1..]);
      UnescapeEscape(s[1..]);
      if IsRegExpSpecial(s[0]) {
        assert (head + EscapeRegExp(s[1..]))[2..] == EscapeRegExp(s[1..]);
      } else {
        assert s[0] != '\\';
        assert (head + EscapeRegExp(s[1..]))[1..] == EscapeRegExp(s[1..]);
      }
    }
  }

  /** Every special character of an escaped query is preceded by a
      backslash, so the pattern matches the query literally: read left to
      right, the string is a sequence of plain characters and
      backslash-special pairs. */
  predicate Literal(r: string)
  {
    r == [] ||
    (!IsRegExpSpecial(r[0]) && Literal(r[1..])) ||
    (|r| >= 2 && r[0] == '\\' && IsRegExpSpecial(r[1]) && Literal(r[2..]))
  }

  lemma {:induction false} EscapedIsLiteral(s: string)
    ensures Literal(EscapeRegExp(s))
  {
    if s != [] {
      var head := if IsRegExpSpecial(s[0]) then ['\\', s[0]] else [s[0]];
      var e := EscapeRegExp(s);
      assert e == head + EscapeRegExp(s[1..]);
      EscapedIsLiteral(s[1..]);
      if IsRegExpSpecial(s[0]) {
        assert e[2..] == EscapeRegExp(s[1..]);
      } else {
        assert e[1..] == EscapeRegExp(s[1..]);
      }
    }
  }

  /** What `highlightMatch(text, query)` does: with an empty text or
      query the (HTML-escaped) text is shown with no `<mark>`; otherwise
      every case-insensitive match of the escaped query is wrapped in one. */
  datatype Highlight = Plain(text: string) | Marked(text: string, pattern: string)

  function HighlightMatch(text: string, query: string): (h: Highlight)
    ensures h.Plain? <==> text == "" || query == ""
    ensures h.text == text
    ensures h.Marked? ==> |h.pattern| >= 2 && h.pattern[0] == '(' && h.pattern[|h.pattern| - 1] == ')'
    ensures h.Marked? ==> Literal(h.pattern[1..|h.pattern| - 1]) && Unescape(h.pattern[1..|h.pattern| - 1]) == query
  {
    if text == "" || query == "" then Plain(text)
    else
      var p := "(" + EscapeRegExp(query) + ")";
      assert p[1..|p| - 1] == EscapeRegExp(query);
      EscapedIsLiteral(query);
      UnescapeEscape(query);
      Marked(text, p)
  }

  /** What a change of the search input leads to. */
  datatype Outcome = RunSearch(query: string) | ReloadList | NoChange

  /** The search box and the module's `isSearching` flag. */
  class SearchBox {
    var input: string
    var isSearching: bool

    constructor ()
      ensures input == "" && !isSearching
    {
      input := "";
      isSearching := false;
    }

    /** `clearSearch`: reloads the note list only while a search is shown,
        and resets the flag. */
    method ClearSearch() returns (o: Outcome)
      modifies this
      ensures o == (if old(isSearching) then ReloadList else NoChange)
      ensures !isSearching && input == old(input)
    {
      if !isSearching {
        return NoChange;
      }
      isSearching := false;
      o := ReloadList;
    }

    /** The debounced input handler: a query blank after trimming clears
        the search; any other query runs trimmed and raises the flag. */
    method OnInput(value: string) returns (o: Outcome)
      modifies this
      ensures input == value
      ensures Trim(value) == "" ==> o == (if old(isSearching) then ReloadList else NoChange) && !isSearching
      ensures Trim(value) != "" ==> o == RunSearch(Trim(value)) && isSearching
    {
      input := value;
      var query := Trim(value);
      if query == "" {
        o := if isSearching then ReloadList else NoChange;
        isSearching := false;
      } else {
        isSearching := true;
        o := RunSearch(query);
      }
    }

    /** Escape empties the input and clears the search. */
    method OnEscape() returns (o: Outcome)
      modifies this
      ensures input == "" && !isSearching
      ensures o == (if old(isSearching) then ReloadList else NoChange)
    {
      input := "";
      o := ClearSearch();
    }
  }

  /** A second clearSearch in a row does nothing. */
  method ClearTwice(box: SearchBox) returns (first: Outcome, second: Outcome)
    modifies box
    ensures second == NoChange && !box.isSearching
    ensures first == (if old(box.isSearching) then ReloadList else NoChange)
  {
    first := box.ClearSearch();
    second := box.ClearSearch();
  }
}
