/** The request validation the controllers run: the `required`, `string` and
    `max:N` rules of `$request->validate`, and PHP truthiness of the search query. */
module Validation {

  /** A request field as the controller receives it: missing (or null), a string,
      or some other JSON value (a number, a boolean, an array). */
  datatype Field = Absent | Text(s: string) | NonText

  datatype Option<T> = None | Some(value: T)

  /** The characters PHP's `trim()` strips by default: space, tab, line feed,
      carriage return, NUL and vertical tab. */
  predicate IsTrimmed(ch: char)
  {
    ch == ' ' || ch == '\t' || ch == '\n' || ch == '\r' || ch == '\U{0}' || ch == '\U{B}'
  }

  function TrimLeft(s: string): string
  {
    if |s| > 0 && IsTrimmed(s[0]) then TrimLeft(s[1..]) else s
  }

  function TrimRight(s: string): string
  {
    if |s| > 0 && IsTrimmed(s[|s| - 1]) then TrimRight(s[..|s| - 1]) else s
  }

  /** PHP's `trim()`. */
  function Trim(s: string): string
  {
    TrimRight(TrimLeft(s))
  }

  lemma {:induction false} TrimLeftEmpty(s: string)
    ensures TrimLeft(s) == "" <==> forall i :: 0 <= i < |s| ==> IsTrimmed(s[i])
  {
    if |s| > 0 && IsTrimmed(s[0]) {
      TrimLeftEmpty(s[1..]);
      assert forall i :: 1 <= i < |s| ==> s[i] == s[1..][i - 1];
    }
  }

  lemma {:induction false} TrimLeftStart(s: string)
    ensures TrimLeft(s) != "" ==> !IsTrimmed(TrimLeft(s)[0])
  {
    if |s| > 0 && IsTrimmed(s[0]) {
      TrimLeftStart(s[1..]);
    }
  }

  /** `trim()` never removes a first character that is not whitespace. */
  lemma {:induction false} TrimRightKeepsStart(s: string)
    requires |s| > 0 && !IsTrimmed(s[0])
    ensures TrimRight(s) != ""
  {
    if IsTrimmed(s[|s| - 1]) {
      TrimRightKeepsStart(s[..|s| - 1]);
    }
  }

  /** A string is blank after `trim()` exactly when every character is one `trim()` strips. */
  lemma TrimEmptyIff(s: string)
    ensures Trim(s) == "" <==> forall i :: 0 <= i < |s| ==> IsTrimmed(s[i])
  {
    TrimLeftEmpty(s);
    TrimLeftStart(s);
    if TrimLeft(s) != "" {
      TrimRightKeepsStart(TrimLeft(s));
    }
  }

  /** Laravel's `required`: the field is present and not a string that trims to "". */
  predicate Required(f: Field)
  {
    match f
    case Absent => false
    case Text(s) => Trim(s) != ""
    case NonText => true
  }

  /** `required|string`, plus `max:N` when a bound is given (N counts characters). */
  predicate Passes(f: Field, max: Option<nat>)
  {
    Required(f) && f.Text? && (max.Some? ==> |f.s| <= max.value)
  }

  /** The failing fields of `title => required|string|max:255, content => required|string`. */
  function PostErrors(title: Field, content: Field): (errors: set<string>)
    ensures errors <= {"title", "content"}
    ensures "title" !in errors <==> Passes(title, Some(255))
    ensures "content" !in errors <==> Passes(content, None)
  {
    (if Passes(title, Some(255)) then {} else {"title"})
    + (if Passes(content, None) then {} else {"content"})
  }

  /** The failing fields of `content => required|string|max:500`. */
  function CommentErrors(content: Field): (errors: set<string>)
    ensures errors == {} <==> Passes(content, Some(500))
    ensures errors != {} ==> errors == {"content"}
  {
    if Passes(content, Some(500)) then {} else {"content"}
  }

  /** `!$query` in PHP: null, the empty string and the string "0" are falsy. */
  predicate Falsy(query: Option<string>)
  {
    query.None? || query.value == "" || query.value == "0"
  }

  /** A title passes exactly when it is a string of at most 255 characters with
      some character `trim()` keeps; content likewise, with no length bound. */
  lemma PostFieldsValid(title: Field, content: Field)
    ensures PostErrors(title, content) == {} <==>
      && title.Text? && |title.s| <= 255 && (exists i :: 0 <= i < |title.s| && !IsTrimmed(title.s[i]))
      && content.Text? && (exists i :: 0 <= i < |content.s| && !IsTrimmed(content.s[i]))
  {
    if title.Text? { TrimEmptyIff(title.s); }
    if content.Text? { TrimEmptyIff(content.s); }
  }

  /** Comment content passes exactly when it is a string of at most 500 characters
      with some character `trim()` keeps. */
  lemma CommentFieldValid(content: Field)
    ensures CommentErrors(content) == {} <==>
      content.Text? && |content.s| <= 500 && (exists i :: 0 <= i < |content.s| && !IsTrimmed(content.s[i]))
  {
    if content.Text? { TrimEmptyIff(content.s); }
  }
}
