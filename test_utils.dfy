/**
 * The text helpers of the project's test base class: the regex-character
 * escape, the page-title extraction, the expected-content pattern, the
 * truncated context dump and the argument checks of `get_user` and
 * `assertPostResponse`.
 */
module TestUtils {
  import opened Wrappers
  import opened Text

  // ---------------------------------------------------------------------
  // Replacement primitives
  // ---------------------------------------------------------------------

  /** Python's `s.replace(c, r)` (and `re.sub` of one literal character). */
  function ReplaceChar(s: string, c: char, r: string): (t: string)
    ensures c !in s ==> t == s
    ensures c !in r ==> c !in t
    ensures forall x :: x in t ==> x in s || x in r
  {
    if s == [] then []
    else
      var rest := ReplaceChar(s[1..], c, r);
      assert [s[0]] + s[1..] == s;
      (if s[0] == c then r else [s[0]]) + rest
  }

  /** Replacing distributes over concatenation. */
  lemma {:induction false} ReplaceAppend(a: string, b: string, c: char, r: string)
    ensures ReplaceChar(a + b, c, r) == ReplaceChar(a, c, r) + ReplaceChar(b, c, r)
  {
    if a == [] {
      assert a + b == b;
    } else {
      var h := if a[0] == c then r else [a[0]];
      assert (a + b)[1..] == a[1..] + b;
      assert ReplaceChar(a + b, c, r) == h + ReplaceChar(a[1..] + b, c, r);
      ReplaceAppend(a[1..], b, c, r);
      AppendAssoc(h, ReplaceChar(a[1..], c, r), ReplaceChar(b, c, r));
    }
  }

  /** `re.sub(pattern, rep, s)` for a literal, non-empty pattern: non-overlapping, left to right. */
  function ReplaceText(s: string, pattern: string, rep: string): (t: string)
    requires pattern != []
    ensures (forall x :: x in s ==> x !in pattern) ==> t == s
    ensures forall x :: x in t ==> x in s || x in rep
    decreases |s|
  {
    if s == [] then []
    else if StartsWith(s, pattern) then
      assert pattern[0] in s;
      rep + ReplaceText(s[|pattern|..], pattern, rep)
    else
      assert [s[0]] + s[1..] == s;
      [s[0]] + ReplaceText(s[1..], pattern, rep)
  }

  // ---------------------------------------------------------------------
  // Whitespace collapsing: re.sub(r'(\s)+', ' ', s)
  // ---------------------------------------------------------------------

  function DropSpaces(s: string): (r: string)
    ensures |r| <= |s| && r == s[|s| - |r|..]
    ensures r == [] || !IsRegexSpace(r[0])
  {
    if s != [] && IsRegexSpace(s[0]) then DropSpaces(s[1..]) else s
  }

  /** The only whitespace is the plain space. */
  predicate PlainSpaces(s: string) {
    forall i :: 0 <= i < |s| && IsRegexSpace(s[i]) ==> s[i] == ' '
  }

  /** No two spaces in a row. */
  predicate SingleSpaces(s: string) {
    forall i :: 0 <= i < |s| - 1 ==> !(s[i] == ' ' && s[i + 1] == ' ')
  }

  /** Both properties survive taking a slice. */
  lemma SliceKeepsSpacing(s: string, a: nat, b: nat)
    requires a <= b <= |s| && PlainSpaces(s) && SingleSpaces(s)
    ensures PlainSpaces(s[a..b]) && SingleSpaces(s[a..b])
  {
    var t := s[a..b];
    assert forall i :: 0 <= i < |t| ==> t[i] == s[a + i];
  }

  /** Every run of `\s` characters becomes one space. */
  function Collapse(s: string): (r: string)
    ensures |r| <= |s|
    ensures s != [] && !IsRegexSpace(s[0]) ==> r != [] && r[0] == s[0]
    ensures PlainSpaces(r) && SingleSpaces(r)
    ensures forall x :: x in r ==> x in s || x == ' '
    decreases |s|
  {
    if s == [] then []
    else if IsRegexSpace(s[0]) then
      var d := DropSpaces(s[1..]);
      assert forall x :: x in d ==> x in s;
      [' '] + Collapse(d)
    else
      [s[0]] + Collapse(s[1..])
  }

  /** Text without runs of whitespace collapses to itself. */
  lemma {:induction false} CollapseTidy(s: string)
    requires PlainSpaces(s) && SingleSpaces(s)
    ensures Collapse(s) == s
  {
    if s != [] {
      var t := s[1..];
      SliceKeepsSpacing(s, 1, |s|);
      CollapseTidy(t);
      if IsRegexSpace(s[0]) {
        assert s[0] == ' ';
        assert t == [] || !IsRegexSpace(t[0]);
        assert DropSpaces(t) == t;
        assert Collapse(s) == [' '] + Collapse(t);
      } else {
        assert Collapse(s) == [s[0]] + Collapse(t);
      }
      assert [s[0]] + t == s;
    }
  }

  // ---------------------------------------------------------------------
  // escape_special_regex_chars
  // ---------------------------------------------------------------------

  /** The characters the escape replaces, in the order it replaces them. */
  const SpecialChars: seq<char> := ['.', '+', '*', '?', '^', '$', '(', ')', '[', ']', '{', '}', '|', '\\']

  predicate IsSpecial(c: char) {
    c in SpecialChars
  }

  /** The HTML numeric character reference `&#<code>;` each special character is replaced by. */
  function Entity(c: char): (r: string)
    ensures forall x :: x in r ==> !IsSpecial(x) && !IsRegexSpace(x)
  {
    "&#" + Decimal(c as nat) + ";"
  }

  /** The fourteen references are the ones the escape writes out. */
  lemma EntityTable()
    ensures Entity('.') == "&#46;" && Entity('+') == "&#43;" && Entity('*') == "&#42;"
    ensures Entity('?') == "&#63;" && Entity('^') == "&#94;" && Entity('$') == "&#36;"
    ensures Entity('(') == "&#40;" && Entity(')') == "&#41;" && Entity('[') == "&#91;"
    ensures Entity(']') == "&#93;" && Entity('{') == "&#123;" && Entity('}') == "&#125;"
    ensures Entity('|') == "&#124;" && Entity('\\') == "&#92;"
  {
    OperatorEntities();
    AnchorEntities();
    BracketEntities();
    BraceEntities();
  }

  lemma OperatorEntities()
    ensures Entity('.') == "&#46;" && Entity('+') == "&#43;" && Entity('*') == "&#42;"
  {
    assert Decimal(46) == Decimal(4) + "6";
    assert Decimal(43) == Decimal(4) + "3";
    assert Decimal(42) == Decimal(4) + "2";
  }

  lemma AnchorEntities()
    ensures Entity('?') == "&#63;" && Entity('^') == "&#94;" && Entity('$') == "&#36;"
  {
    assert Decimal(63) == Decimal(6) + "3";
    assert Decimal(94) == Decimal(9) + "4";
    assert Decimal(36) == Decimal(3) + "6";
  }

  lemma BracketEntities()
    ensures Entity('(') == "&#40;" && Entity(')') == "&#41;" && Entity('[') == "&#91;"
    ensures Entity(']') == "&#93;" && Entity('\\') == "&#92;"
  {
    assert Decimal(40) == Decimal(4) + "0";
    assert Decimal(41) == Decimal(4) + "1";
    assert Decimal(91) == Decimal(9) + "1";
    assert Decimal(93) == Decimal(9) + "3";
    assert Decimal(92) == Decimal(9) + "2";
  }

  lemma BraceEntities()
    ensures Entity('{') == "&#123;" && Entity('}') == "&#125;" && Entity('|') == "&#124;"
  {
    assert Decimal(12) == Decimal(1) + "2";
    assert Decimal(123) == Decimal(12) + "3";
    assert Decimal(125) == Decimal(12) + "5";
    assert Decimal(124) == Decimal(12) + "4";
  }

  /** One character after the first `k` special characters have been replaced. */
  function EscapeCharUpTo(ch: char, k: nat): string
    requires k <= |SpecialChars|
  {
    if ch in SpecialChars[..k] then Entity(ch) else [ch]
  }

  /** The text after the first `k` replacements: each character on its own. */
  function EscapedUpTo(s: string, k: nat): string
    requires k <= |SpecialChars|
  {
    if s == [] then [] else EscapeCharUpTo(s[0], k) + EscapedUpTo(s[1..], k)
  }

  /** The text with every special character replaced by its reference. */
  function Escaped(s: string): string {
    EscapedUpTo(s, |SpecialChars|)
  }

  lemma {:induction false} EscapedUpToNone(s: string)
    ensures EscapedUpTo(s, 0) == s
  {
    if s != [] {
      EscapedUpToNone(s[1..]);
      assert [s[0]] + s[1..] == s;
    }
  }

  /** One more replacement pass turns the first `k` replacements into the first `k + 1`. */
  lemma {:induction false} ReplaceStep(s: string, k: nat)
    requires k < |SpecialChars|
    ensures ReplaceChar(EscapedUpTo(s, k), SpecialChars[k], Entity(SpecialChars[k])) == EscapedUpTo(s, k + 1)
  {
    var c := SpecialChars[k];
    if s != [] {
      var ch := s[0];
      ReplaceAppend(EscapeCharUpTo(ch, k), EscapedUpTo(s[1..], k), c, Entity(c));
      ReplaceStep(s[1..], k);
      ReplaceStepChar(ch, k);
    }
  }

  /** `ReplaceStep` for a single character. */
  lemma ReplaceStepChar(ch: char, k: nat)
    requires k < |SpecialChars|
    ensures ReplaceChar(EscapeCharUpTo(ch, k), SpecialChars[k], Entity(SpecialChars[k])) == EscapeCharUpTo(ch, k + 1)
  {
    var c := SpecialChars[k];
    assert SpecialChars[..k + 1] == SpecialChars[..k] + [c];
    if ch in SpecialChars[..k] {
      assert IsSpecial(c);
      assert c !in Entity(ch);
    } else {
      assert ReplaceChar([ch], c, Entity(c)) == (if ch == c then Entity(c) else [ch]);
    }
  }

  /** `escape_special_regex_chars`: one replacement pass per special character, in list order. */
  method EscapeSpecialRegexChars(value: string) returns (r: string)
    ensures r == Escaped(value)
  {
    r := value;
    EscapedUpToNone(value);
    for k := 0 to |SpecialChars|
      invariant r == EscapedUpTo(value, k)
    {
      var c := SpecialChars[k];
      ReplaceStep(value, k);
      if c in r {
        r := ReplaceChar(r, c, Entity(c));
      }
    }
  }

  /** No special character survives the escape. */
  lemma {:induction false} EscapedIsClean(s: string, c: char)
    requires IsSpecial(c)
    ensures c !in Escaped(s)
  {
    if s != [] {
      EscapedIsClean(s[1..], c);
      assert SpecialChars[..|SpecialChars|] == SpecialChars;
    }
  }

  /** Text without special characters is left as it is. */
  lemma {:induction false} EscapedKeepsPlainText(s: string)
    requires forall x :: x in s ==> !IsSpecial(x)
    ensures Escaped(s) == s
  {
    if s != [] {
      assert s[0] in s;
      EscapedKeepsPlainText(s[1..]);
      assert SpecialChars[..|SpecialChars|] == SpecialChars;
      assert EscapeCharUpTo(s[0], |SpecialChars|) == [s[0]];
      assert [s[0]] + s[1..] == s;
    }
  }

  /** The escape works character by character, so it distributes over concatenation. */
  lemma {:induction false} EscapedAppend(a: string, b: string)
    ensures Escaped(a + b) == Escaped(a) + Escaped(b)
  {
    if a == [] {
      assert a + b == b;
    } else {
      var h := EscapeCharUpTo(a[0], |SpecialChars|);
      assert (a + b)[1..] == a[1..] + b;
      assert Escaped(a + b) == h + Escaped(a[1..] + b);
      EscapedAppend(a[1..], b);
      AppendAssoc(h, Escaped(a[1..]), Escaped(b));
    }
  }

  // ---------------------------------------------------------------------
  // get_page_title
  // ---------------------------------------------------------------------

  const TitleOpen := "<title>"
  const TitleClose := "</title>"
  const NoMatchMessage := "'NoneType' object has no attribute 'group'"

  predicate OccursAt(s: string, pattern: string, i: nat) {
    i + |pattern| <= |s| && s[i..i + |pattern|] == pattern
  }

  /** The first occurrence of `pattern` at or after `from`. */
  function FirstFrom(s: string, pattern: string, from: nat): (r: Option<nat>)
    ensures r.Some? ==> from <= r.value && OccursAt(s, pattern, r.value)
    ensures r.Some? ==> forall j: nat :: from <= j < r.value ==> !OccursAt(s, pattern, j)
    ensures r.None? ==> forall j: nat :: from <= j ==> !OccursAt(s, pattern, j)
    decreases |s| - from
  {
    if from + |pattern| > |s| then None
    else if OccursAt(s, pattern, from) then Some(from)
    else FirstFrom(s, pattern, from + 1)
  }

  /** The last occurrence of `pattern` that starts before `hi`. */
  function LastBefore(s: string, pattern: string, hi: nat): (r: Option<nat>)
    ensures r.Some? ==> r.value < hi && OccursAt(s, pattern, r.value)
    ensures r.Some? ==> forall j: nat :: r.value < j < hi ==> !OccursAt(s, pattern, j)
    ensures r.None? ==> forall j: nat :: j < hi ==> !OccursAt(s, pattern, j)
  {
    if hi == 0 then None
    else if OccursAt(s, pattern, hi - 1) then Some(hi - 1)
    else LastBefore(s, pattern, hi - 1)
  }

  /** Some occurrence of `open` is followed, at least one character after it ends, by some occurrence of `close`. */
  ghost predicate PairMatches(s: string, open: string, close: string) {
    exists i: nat, j: nat :: i + |open| < j && OccursAt(s, open, i) && OccursAt(s, close, j)
  }

  /** Some `<title>` is followed, at least one character later, by some `</title>`. */
  ghost predicate TitleMatches(content: string) {
    PairMatches(content, TitleOpen, TitleClose)
  }

  /** A pair occurs exactly when the first `open` ends before the last `close` with room for one character. */
  lemma PairMatchBounds(s: string, open: string, close: string)
    ensures var first := FirstFrom(s, open, 0);
            var last := LastBefore(s, close, |s| + 1);
            PairMatches(s, open, close) <==> first.Some? && last.Some? && first.value + |open| < last.value
  {
    if PairMatches(s, open, close) {
      var i: nat, j: nat :| i + |open| < j && OccursAt(s, open, i) && OccursAt(s, close, j);
      assert j < |s| + 1;
    }
  }

  /** A match exists exactly when the first `<title>` comes before the last `</title>` with room for one character. */
  lemma TitleMatchBounds(content: string)
    ensures var open := FirstFrom(content, TitleOpen, 0);
            var close := LastBefore(content, TitleClose, |content| + 1);
            TitleMatches(content) <==> open.Some? && close.Some? && open.value + |TitleOpen| < close.value
  {
    PairMatchBounds(content, TitleOpen, TitleClose);
  }

  /**
   * `re.search(r'<title>([\S\s]+)</title>', content).group(1)`: the leftmost
   * match starts at the first `<title>`, and the greedy group runs to the last
   * `</title>`; no match raises an AttributeError on `None.group`.
   */
  function TitleGroup(content: string): (r: Result<string>)
    ensures r.Ok? <==> TitleMatches(content)
    ensures r.Err? ==> r == Err(AttributeError(NoMatchMessage))
    ensures r.Ok? ==> r.value != []
  {
    var open := FirstFrom(content, TitleOpen, 0);
    var close := LastBefore(content, TitleClose, |content| + 1);
    if open.Some? && close.Some? && open.value + |TitleOpen| < close.value then
      Ok(content[open.value + |TitleOpen|..close.value])
    else
      TitleMatchBounds(content);
      Err(AttributeError(NoMatchMessage))
  }

  /** `re.sub(r'(\n|\r)+', '', s)`. */
  function RemoveLineBreaks(s: string): (r: string)
    ensures '\n' !in r && '\r' !in r
    ensures forall x :: x in r ==> x in s
  {
    if s == [] then []
    else if s[0] == '\n' || s[0] == '\r' then RemoveLineBreaks(s[1..])
    else [s[0]] + RemoveLineBreaks(s[1..])
  }

  /** The title text once its line breaks and repeated whitespace are gone and its ends are stripped. */
  function TidyTitle(group: string): string {
    Strip(Collapse(RemoveLineBreaks(group)))
  }

  /** `get_page_title`. */
  function GetPageTitle(content: string): (r: Result<string>)
    ensures r.Ok? <==> TitleMatches(content)
    ensures r.Err? ==> r.error.AttributeError?
  {
    var g := TitleGroup(content);
    if g.Ok? then Ok(TidyTitle(g.value)) else Err(g.error)
  }

  /** A tidy title: plain spaces only, never two in a row, none at either end. */
  predicate Tidy(t: string) {
    PlainSpaces(t) && SingleSpaces(t) && (t == [] || (t[0] != ' ' && t[|t| - 1] != ' '))
  }

  /** Stripping text with single plain spaces leaves it tidy. */
  lemma StripTidies(c: string)
    requires PlainSpaces(c) && SingleSpaces(c)
    ensures Tidy(Strip(c))
  {
    var l := LStrip(c);
    var t := RStrip(l);
    SliceKeepsSpacing(c, |c| - |l|, |c|);
    SliceKeepsSpacing(l, 0, |t|);
    if t != [] {
      assert t[0] == l[0];
    }
  }

  /** Whatever the page holds, the title returned is tidy. */
  lemma TitleIsTidy(content: string)
    ensures GetPageTitle(content).Ok? ==> Tidy(GetPageTitle(content).value)
  {
    var g := TitleGroup(content);
    if g.Ok? {
      StripTidies(Collapse(RemoveLineBreaks(g.value)));
    }
  }

  /** A tidy title is returned as it stands. */
  lemma TidyTitleKeepsTidy(t: string)
    requires Tidy(t)
    ensures TidyTitle(t) == t
  {
    assert '\n' !in t && '\r' !in t by {
      if '\n' in t || '\r' in t {
        var i :| 0 <= i < |t| && (t[i] == '\n' || t[i] == '\r');
        assert IsRegexSpace(t[i]);
      }
    }
    RemoveLineBreaksNone(t);
    CollapseTidy(t);
    StripTrimmed(t);
  }

  lemma {:induction false} RemoveLineBreaksNone(s: string)
    requires '\n' !in s && '\r' !in s
    ensures RemoveLineBreaks(s) == s
  {
    if s != [] {
      RemoveLineBreaksNone(s[1..]);
      assert [s[0]] + s[1..] == s;
    }
  }

  /** A page that is exactly one title element yields that title, tidied. */
  lemma TitleOfBarePage(t: string)
    requires t != []
    ensures GetPageTitle(TitleOpen + t + TitleClose) == Ok(TidyTitle(t))
  {
    var content := TitleOpen + t + TitleClose;
    var j := |TitleOpen| + |t|;
    assert OccursAt(content, TitleOpen, 0);
    assert content[j..] == TitleClose;
    assert OccursAt(content, TitleClose, j);
    assert content[|TitleOpen|..j] == t;
    var open := FirstFrom(content, TitleOpen, 0);
    assert open == Some(0);
    var close := LastBefore(content, TitleClose, |content| + 1);
    assert close.Some? && close.value <= j;
    assert close == Some(j);
    assert TitleGroup(content) == Ok(t);
  }

  // ---------------------------------------------------------------------
  // _assertPageContent: the expected-content pattern
  // ---------------------------------------------------------------------

  /** `r'((\s)*)'`: any amount of whitespace. */
  const AnySpace := "((\\s)*)"

  /** The pattern: any whitespace, then every piece followed by any whitespace. */
  function PatternOf(pieces: seq<string>): string {
    AnySpace + Interleaved(pieces, AnySpace)
  }

  /** The pattern is the pieces joined by the any-whitespace group, with one more at either end. */
  lemma PatternIsJoin(pieces: seq<string>)
    requires pieces != []
    ensures PatternOf(pieces) == AnySpace + Join(pieces, AnySpace) + AnySpace
  {
    InterleavedIsJoin(pieces, AnySpace);
    AppendAssoc(AnySpace, Join(pieces, AnySpace), AnySpace);
  }

  /** The expected text before it is split: references for `&nbsp;`, whitespace collapsed, `$` and `^` escaped. */
  function PreparedContent(expected: string): string {
    var e := ReplaceText(expected, "&nbsp;", " ");
    var e := Collapse(e);
    var e := ReplaceChar(e, '$', Entity('$'));
    ReplaceChar(e, '^', Entity('^'))
  }

  /** The pattern `_assertPageContent` searches the page for. */
  method ExpectedContentPattern(expected: string) returns (r: string)
    ensures r == PatternOf(Split(PreparedContent(expected), ' '))
  {
    var pieces := Split(PreparedContent(expected), ' ');
    r := AnySpace;
    for k := 0 to |pieces|
      invariant r == PatternOf(pieces[..k])
    {
      InterleavedSnoc(pieces, k, AnySpace);
      AppendAssoc(AnySpace, Interleaved(pieces[..k], AnySpace), pieces[k]);
      AppendAssoc(AnySpace, Interleaved(pieces[..k], AnySpace) + pieces[k], AnySpace);
      r := r + pieces[k];
      r := r + AnySpace;
    }
    assert pieces[..|pieces|] == pieces;
  }

  lemma {:induction false} SplitChars(s: string, sep: char, i: nat, x: char)
    requires i < |Split(s, sep)| && x in Split(s, sep)[i]
    ensures x in s
  {
    if s != [] {
      var rest := Split(s[1..], sep);
      if s[0] == sep {
        if i > 0 {
          SplitChars(s[1..], sep, i - 1, x);
        }
      } else if i == 0 {
        if x != s[0] {
          SplitChars(s[1..], sep, 0, x);
        }
      } else {
        SplitChars(s[1..], sep, i, x);
      }
    }
  }

  /** No literal piece of the pattern holds whitespace, `$` or `^`: the page may space its words freely. */
  lemma PatternPiecesArePlain(expected: string, i: nat, x: char)
    requires i < |Split(PreparedContent(expected), ' ')|
    requires x in Split(PreparedContent(expected), ' ')[i]
    ensures !IsRegexSpace(x) && x != '$' && x != '^'
  {
    var p := PreparedContent(expected);
    SplitChars(p, ' ', i, x);
    var c := Collapse(ReplaceText(expected, "&nbsp;", " "));
    var d := ReplaceChar(c, '$', Entity('$'));
    assert x in d || x in Entity('^');
    assert x in c || x in Entity('$') || x in Entity('^');
    if x in c {
      var k :| 0 <= k < |c| && c[k] == x;
    }
    assert x != ' ';
  }

  // ---------------------------------------------------------------------
  // debug_response_context, get_user, assertPostResponse
  // ---------------------------------------------------------------------

  /** A context value as the debug dump prints it: over 80 characters shows only both ends. */
  function ContextValueText(v: string): (r: string)
    ensures |v| <= 80 ==> r == v
    ensures |v| > 80 ==> |r| == 89 && r[1..41] == v[..40] && r[48..88] == v[|v| - 40..]
    ensures |r| <= 89
  {
    if |v| > 80 then "\"" + v[..40] + "\" ... \"" + v[|v| - 40..] + "\"" else v
  }

  /** What `get_user` can be handed. */
  datatype UserArgument =
    | ListArgument
    | TupleArgument
    | QuerySetArgument
    | UserObject(username: string)
    | UsernameArgument(name: string)

  function IterableMessage(typeName: string, iterated: string): string {
    "Expected type \"User\", got type \"" + typeName + "\". Did you mean to iterate on this " + iterated + "?"
  }

  /** `get_user`: the username of the user returned, given the stored usernames. */
  function GetUser(user: UserArgument, stored: set<string>): (r: Result<string>)
    ensures r.Err? && r.error.TypeError? <==> user.ListArgument? || user.TupleArgument? || user.QuerySetArgument?
    ensures user.UserObject? ==> r == Ok(user.username)
    ensures user.UsernameArgument? ==> (r.Ok? <==> user.name in stored) && (r.Ok? ==> r.value == user.name)
    ensures user.UsernameArgument? && r.Err? ==> r.error.DoesNotExist?
  {
    match user
    case ListArgument => Err(TypeError(IterableMessage("List", "list")))
    case TupleArgument => Err(TypeError(IterableMessage("Tuple", "tuple")))
    case QuerySetArgument => Err(TypeError(IterableMessage("QuerySet", "QuerySet")))
    case UserObject(name) => Ok(name)
    case UsernameArgument(name) =>
      if name in stored then Ok(name)
      else Err(DoesNotExist)
  }

  /** A POST field value: the marker flag or submitted text. */
  datatype PostValue = Flag(flag: bool) | Field(text: string)

  /** `assertPostResponse`'s data: missing or empty data becomes `{'UnitTest': True}`, so the POST is never empty. */
  function PostData(data: Option<map<string, PostValue>>): (r: map<string, PostValue>)
    ensures r != map[]
    ensures data.Some? && data.value != map[] ==> r == data.value
    ensures data.None? || data.value == map[] ==> r == map["UnitTest" := Flag(true)]
  {
    if data.Some? && data.value != map[] then data.value
    else
      var marker := map["UnitTest" := Flag(true)];
      assert "UnitTest" in marker;
      marker
  }
}
