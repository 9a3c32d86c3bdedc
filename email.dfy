/** The address pattern `^\S+@\S+\.\S+$` that the user and order schemas
    match email fields against. */
module EmailPattern {
  import opened Wrappers
  import opened Text

  /** Positions `i` of an `@` and `j` of a `.` that split `s` into the three
      non-empty runs the pattern asks for: `s[..i]`, `s[i+1..j]`, `s[j+1..]`. */
  predicate SplitsAt(s: string, i: int, j: int) {
    1 <= i && i + 2 <= j && j + 2 <= |s| && s[i] == '@' && s[j] == '.'
  }

  /** What the regular expression accepts: no whitespace anywhere (every
      character is matched by `\S`, `@` or `\.`), and an `@` and a later `.`
      with at least one character before, between and after them. */
  ghost predicate Matches(s: string) {
    NoWhitespace(s) && exists i, j :: SplitsAt(s, i, j)
  }

  /** The first index at or after `from` holding `c`. */
  function FirstIndexOf(s: string, c: char, from: nat): (r: Option<nat>)
    ensures r.None? ==> forall k :: from <= k < |s| ==> s[k] != c
    ensures r.Some? ==> from <= r.value < |s| && s[r.value] == c
                        && forall k :: from <= k < r.value ==> s[k] != c
    decreases |s| - from
  {
    if from >= |s| then None
    else if s[from] == c then Some(from)
    else FirstIndexOf(s, c, from + 1)
  }

  /** The last index below `upto` holding `c`. */
  function LastIndexOf(s: string, c: char, upto: nat): (r: Option<nat>)
    requires upto <= |s|
    ensures r.None? ==> forall k :: 0 <= k < upto ==> s[k] != c
    ensures r.Some? ==> r.value < upto && s[r.value] == c
                        && forall k :: r.value < k < upto ==> s[k] != c
  {
    if upto == 0 then None
    else if s[upto - 1] == c then Some(upto - 1)
    else LastIndexOf(s, c, upto - 1)
  }

  /** A linear check of the pattern: the earliest usable `@` and the latest
      usable `.` are far enough apart exactly when some pair is. */
  function IsEmailShaped(s: string): (r: bool)
    ensures r <==> Matches(s)
  {
    if |s| < 5 || !NoWhitespace(s) then false
    else
      var at := FirstIndexOf(s, '@', 1);
      var dot := LastIndexOf(s, '.', |s| - 1);
      if at.Some? && dot.Some? && at.value + 2 <= dot.value then
        assert SplitsAt(s, at.value, dot.value);
        true
      else
        false
  }
}
