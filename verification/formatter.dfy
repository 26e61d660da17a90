/** Room.processTextFormatting: seven regular-expression replaceAll passes,
    each rewriting spans `open (.*?) close` left to right, without overlap,
    with the shortest possible content. Roll and flip announcements are left
    untouched. There is no toggle state and no auto-closing: a delimiter
    without a partner stays as it is. */
module Formatter {
  import opened Common
  import opened Strings

  /** The characters Java's `.` refuses to match outside DOTALL mode. */
  predicate IsLineTerminator(c: char) {
    c == '\n' || c == '\r' || c == '\U{0085}' || c == '\U{2028}' || c == '\U{2029}'
  }

  predicate NoTerminator(s: string) {
    forall i :: 0 <= i < |s| ==> !IsLineTerminator(s[i])
  }

  predicate IsHexDigit(c: char) {
    '0' <= c <= '9' || 'a' <= c <= 'f' || 'A' <= c <= 'F'
  }

  /** One pass: the literal `open`, then (when `hex`) a captured group of six
      hex digits, then the shortest `.*?`, then the literal `close`. A match
      becomes pre + captured digits + mid + content + post. */
  datatype Rule = Rule(open: string, hex: bool, close: string, pre: string, mid: string, post: string)
  {
    function OpenLength(): nat {
      |open| + if hex then 6 else 0
    }

    /** The text starts with this rule's opening delimiter (and colour digits). */
    predicate OpensAt(t: string) {
      && StartsWith(t, open)
      && (hex ==> |t| >= |open| + 6 && forall i :: |open| <= i < |open| + 6 ==> IsHexDigit(t[i]))
    }
  }

  const Bold := Rule("**", false, "**", "<b>", "", "</b>")
  const Italic := Rule("*", false, "*", "<i>", "", "</i>")
  const Underline := Rule("_", false, "_", "<u>", "", "</u>")
  const Red := Rule("#r", false, "r#", "<font color='red'>", "", "</font>")
  const Green := Rule("#g", false, "g#", "<font color='green'>", "", "</font>")
  const Blue := Rule("#b", false, "b#", "<font color='blue'>", "", "</font>")
  const Hex := Rule("#", true, "#", "<font color='#", "'>", "</font>")

  /** The reluctant `(.*?)close`: the length of the shortest prefix of `t`
      that is followed by `close` and holds no line terminator. */
  function FindClose(t: string, close: string): (k: Option<nat>)
    ensures k.Some? ==> k.value <= |t| && StartsWith(t[k.value..], close) && NoTerminator(t[..k.value])
    ensures k.Some? ==> forall j :: 0 <= j < k.value ==> !StartsWith(t[j..], close)
    ensures k.None? ==> forall j :: 0 <= j <= |t| && NoTerminator(t[..j]) ==> !StartsWith(t[j..], close)
    decreases |t|
  {
    if StartsWith(t, close) then Some(0)
    else if |t| == 0 then None
    else if IsLineTerminator(t[0]) then
      TerminatorFirst(t);
      None
    else
      match FindClose(t[1..], close)
      case Some(n) =>
        FoundLater(t, close, n);
        Some(n + 1)
      case None =>
        NotFoundLater(t, close);
        None
  }

  /** No prefix past a leading line terminator is free of terminators. */
  lemma TerminatorFirst(t: string)
    requires |t| > 0 && IsLineTerminator(t[0])
    ensures forall j :: 1 <= j <= |t| ==> !NoTerminator(t[..j])
  {
    forall j | 1 <= j <= |t|
      ensures !NoTerminator(t[..j])
    {
      assert t[..j][0] == t[0];
    }
  }

  /** A closer first found `n` characters into `t[1..]` is first found at `n + 1` in `t`. */
  lemma FoundLater(t: string, close: string, n: nat)
    requires |t| > 0 && !StartsWith(t, close) && !IsLineTerminator(t[0])
    requires n <= |t[1..]| && StartsWith(t[1..][n..], close) && NoTerminator(t[1..][..n])
    requires forall j :: 0 <= j < n ==> !StartsWith(t[1..][j..], close)
    ensures n + 1 <= |t| && StartsWith(t[n + 1..], close) && NoTerminator(t[..n + 1])
    ensures forall j :: 0 <= j < n + 1 ==> !StartsWith(t[j..], close)
  {
    assert t[1..][n..] == t[n + 1..];
    assert t[..n + 1] == [t[0]] + t[1..][..n];
    forall j | 1 <= j < n + 1
      ensures !StartsWith(t[j..], close)
    {
      assert t[1..][j - 1..] == t[j..];
    }
  }

  /** A closer absent from `t[1..]` is absent from `t` unless `t` starts with it. */
  lemma NotFoundLater(t: string, close: string)
    requires |t| > 0 && !StartsWith(t, close) && !IsLineTerminator(t[0])
    requires forall j :: 0 <= j <= |t[1..]| && NoTerminator(t[1..][..j]) ==> !StartsWith(t[1..][j..], close)
    ensures forall j :: 0 <= j <= |t| && NoTerminator(t[..j]) ==> !StartsWith(t[j..], close)
  {
    forall j | 1 <= j <= |t| && NoTerminator(t[..j])
      ensures !StartsWith(t[j..], close)
    {
      assert t[1..][j - 1..] == t[j..];
      assert t[1..][..j - 1] == t[1..j];
      assert forall i :: 0 <= i < j - 1 ==> t[1..j][i] == t[..j][i + 1];
    }
  }

  /** A match at the start of `t`: the captured digits, the content and what follows. */
  datatype Match = Match(digits: string, content: string, rest: string)

  function MatchAt(t: string, rule: Rule): (m: Option<Match>)
    ensures m.Some? ==> rule.OpensAt(t)
    ensures m.Some? ==> t == rule.open + m.value.digits + m.value.content + rule.close + m.value.rest
    ensures m.Some? ==> NoTerminator(m.value.content)
    ensures m.Some? <==> rule.OpensAt(t) && FindClose(t[rule.OpenLength()..], rule.close).Some?
    ensures m.Some? ==> && rule.OpenLength() + |m.value.content| <= |t|
                        && forall j :: 0 <= j < |m.value.content| ==> !StartsWith(t[rule.OpenLength()..][j..], rule.close)
  {
    if !rule.OpensAt(t) then None
    else
      var n := rule.OpenLength();
      var body := t[n..];
      match FindClose(body, rule.close)
      case None => None
      case Some(k) =>
        MatchFacts(t, rule, k);
        Some(Match(t[|rule.open|..n], body[..k], body[k + |rule.close|..]))
  }

  /** The pieces of a match found at the start of `t`: they rebuild `t`, the
      content holds no line terminator, and no shorter content reaches the closer. */
  lemma MatchFacts(t: string, rule: Rule, k: nat)
    requires rule.OpensAt(t) && FindClose(t[rule.OpenLength()..], rule.close) == Some(k)
    ensures var n := rule.OpenLength();
            var m := Match(t[|rule.open|..n], t[n..][..k], t[n..][k + |rule.close|..]);
            && n + k <= |t|
            && t == rule.open + m.digits + m.content + rule.close + m.rest
            && NoTerminator(m.content)
            && forall j :: 0 <= j < |m.content| ==> !StartsWith(t[n..][j..], rule.close)
  {
    Decompose(t, rule.open, rule.OpenLength(), k, rule.close);
  }

  /** Cutting a matched text at its delimiters gives back the text. */
  lemma Decompose(t: string, open: string, n: nat, k: nat, close: string)
    requires StartsWith(t, open) && |open| <= n <= |t|
    requires k <= |t| - n && StartsWith(t[n..][k..], close)
    ensures t == open + t[|open|..n] + t[n..][..k] + close + t[n..][k + |close|..]
  {
    var body := t[n..];
    assert body == body[..k] + body[k..];
    assert body[k..] == close + body[k + |close|..];
    assert t == t[..|open|] + t[|open|..n] + body;
  }

  /** String.replaceAll with one rule: scan left to right; at each position
      either rewrite a match and continue after it, or copy one character. */
  function ReplaceAll(t: string, rule: Rule): string
    requires rule.open != []
    decreases |t|
  {
    if t == [] then []
    else
      match MatchAt(t, rule)
      case Some(m) => rule.pre + m.digits + rule.mid + m.content + rule.post + ReplaceAll(m.rest, rule)
      case None => [t[0]] + ReplaceAll(t[1..], rule)
  }

  /** The seven passes of Room.processTextFormatting, in the source's order. */
  function Passes(message: string): string {
    var bold := ReplaceAll(message, Bold);
    var italic := ReplaceAll(bold, Italic);
    var underline := ReplaceAll(italic, Underline);
    var red := ReplaceAll(underline, Red);
    var green := ReplaceAll(red, Green);
    var blue := ReplaceAll(green, Blue);
    ReplaceAll(blue, Hex)
  }

  /** Roll and flip announcements are exempt from formatting. */
  predicate Reserved(message: string) {
    StartsWith(message, "ROLL:") || StartsWith(message, "FLIP:")
  }

  /** Room.processTextFormatting. */
  function Format(message: string): (r: string)
    ensures Reserved(message) ==> r == message
  {
    if Reserved(message) then message else Passes(message)
  }

  /** A message whose first character is neither 'R' nor 'F' goes through every pass. */
  lemma Unreserved(message: string)
    requires |message| > 0 && message[0] != 'R' && message[0] != 'F'
    ensures Format(message) == Passes(message)
  {
    FirstCharBars(message, "ROLL:");
    FirstCharBars(message, "FLIP:");
  }

  /** A text does not start with a prefix whose first character it lacks. */
  lemma FirstCharBars(s: string, prefix: string)
    requires |s| > 0 && |prefix| > 0 && s[0] != prefix[0]
    ensures !StartsWith(s, prefix)
  {
    assert |prefix| <= |s| ==> s[..|prefix|][0] == s[0];
  }

  /** A pass that matches nowhere leaves the text as it is. */
  lemma {:induction false} NoMatchIdentity(t: string, rule: Rule)
    requires rule.open != []
    requires forall i :: 0 <= i < |t| ==> MatchAt(t[i..], rule).None?
    ensures ReplaceAll(t, rule) == t
    decreases |t|
  {
    if t != [] {
      assert MatchAt(t[0..], rule).None?;
      assert t[0..] == t;
      forall i | 0 <= i < |t[1..]|
        ensures MatchAt(t[1..][i..], rule).None?
      {
        assert t[1..][i..] == t[i + 1..];
      }
      NoMatchIdentity(t[1..], rule);
    }
  }

  /** A pass whose opening character never occurs leaves the text as it is. */
  lemma AbsentOpenerIdentity(t: string, rule: Rule)
    requires rule.open != [] && rule.open[0] !in t
    ensures ReplaceAll(t, rule) == t
  {
    forall i | 0 <= i < |t|
      ensures MatchAt(t[i..], rule).None?
    {
      assert t[i..][0] == t[i];
    }
    NoMatchIdentity(t, rule);
  }

  /** Text free of '*', '_' and '#' passes through every pass unchanged. */
  lemma PlainTextUnchanged(message: string)
    requires '*' !in message && '_' !in message && '#' !in message
    ensures Format(message) == message
  {
    AbsentOpenerIdentity(message, Bold);
    AbsentOpenerIdentity(message, Italic);
    AbsentOpenerIdentity(message, Underline);
    AbsentOpenerIdentity(message, Red);
    AbsentOpenerIdentity(message, Green);
    AbsentOpenerIdentity(message, Blue);
    AbsentOpenerIdentity(message, Hex);
  }

  /** The reluctant search stops at the first closing delimiter it can reach. */
  lemma FindCloseFirst(t: string, close: string, n: nat)
    requires n <= |t| && StartsWith(t[n..], close) && NoTerminator(t[..n])
    requires forall j :: 0 <= j < n ==> !StartsWith(t[j..], close)
    ensures FindClose(t, close) == Some(n)
  {
  }

  /** A text that is exactly one delimited span is rewritten to its tags
      around the content, provided the content holds no line terminator and
      the closing delimiter first occurs at the end. */
  lemma SpanReplaced(rule: Rule, digits: string, x: string)
    requires rule.open != []
    requires if rule.hex then |digits| == 6 && forall i :: 0 <= i < 6 ==> IsHexDigit(digits[i]) else digits == []
    requires FindClose(x + rule.close, rule.close) == Some(|x|)
    ensures ReplaceAll(rule.open + digits + x + rule.close, rule) == rule.pre + digits + rule.mid + x + rule.post
  {
    var t := rule.open + digits + x + rule.close;
    SpanFound(rule, digits, x);
    WholeSpan(t, rule, Match(digits, x, []));
  }

  /** The span is found at the start, with nothing after it. */
  lemma SpanFound(rule: Rule, digits: string, x: string)
    requires rule.open != []
    requires if rule.hex then |digits| == 6 && forall i :: 0 <= i < 6 ==> IsHexDigit(digits[i]) else digits == []
    requires FindClose(x + rule.close, rule.close) == Some(|x|)
    ensures MatchAt(rule.open + digits + x + rule.close, rule) == Some(Match(digits, x, []))
  {
    var t := rule.open + digits + x + rule.close;
    SpanLayout(rule, digits, x);
    MatchParts(t, rule, digits, x + rule.close, x, []);
  }

  /** `t` is the rule's opener, then `digits`, then `body`. */
  predicate LaidOut(t: string, rule: Rule, digits: string, body: string) {
    && rule.OpensAt(t) && |rule.open| <= rule.OpenLength() <= |t|
    && t[|rule.open|..rule.OpenLength()] == digits && t[rule.OpenLength()..] == body
  }

  lemma SpanLayout(rule: Rule, digits: string, x: string)
    requires if rule.hex then |digits| == 6 && forall i :: 0 <= i < 6 ==> IsHexDigit(digits[i]) else digits == []
    ensures LaidOut(rule.open + digits + x + rule.close, rule, digits, x + rule.close)
    ensures x + rule.close + [] == x + rule.close
  {
    Pieces(rule.open, digits, x, rule.close);
    OpensBeforeDigits(rule, digits, x);
  }

  /** A text laid out as opener, digits, content and closer matches as such. */
  lemma MatchParts(t: string, rule: Rule, digits: string, body: string, x: string, rest: string)
    requires LaidOut(t, rule, digits, body)
    requires body == x + rule.close + rest && FindClose(body, rule.close) == Some(|x|)
    ensures MatchAt(t, rule) == Some(Match(digits, x, rest))
  {
    assert body[..|x|] == x && body[|x| + |rule.close|..] == rest;
    MatchAtFound(t, rule, |x|);
  }

  /** A match covering the whole text is replaced by its tags alone. */
  lemma WholeSpan(t: string, rule: Rule, m: Match)
    requires rule.open != [] && MatchAt(t, rule) == Some(m) && m.rest == []
    ensures ReplaceAll(t, rule) == rule.pre + m.digits + rule.mid + m.content + rule.post
  {
    ReplaceAllAtMatch(t, rule, m);
    var out := rule.pre + m.digits + rule.mid + m.content + rule.post;
    assert out + [] == out;
  }

  /** One step of the scan when the text starts with a match. */
  lemma ReplaceAllAtMatch(t: string, rule: Rule, m: Match)
    requires rule.open != [] && MatchAt(t, rule) == Some(m)
    ensures ReplaceAll(t, rule) == rule.pre + m.digits + rule.mid + m.content + rule.post + ReplaceAll(m.rest, rule)
  {
  }

  lemma MatchAtFound(t: string, rule: Rule, k: nat)
    requires rule.OpensAt(t) && FindClose(t[rule.OpenLength()..], rule.close) == Some(k)
    ensures MatchAt(t, rule) == Some(Match(t[|rule.open|..rule.OpenLength()], t[rule.OpenLength()..][..k],
                                           t[rule.OpenLength()..][k + |rule.close|..]))
  {
  }

  lemma OpensBeforeDigits(rule: Rule, digits: string, x: string)
    requires if rule.hex then |digits| == 6 && forall i :: 0 <= i < 6 ==> IsHexDigit(digits[i]) else digits == []
    ensures rule.OpensAt(rule.open + digits + x + rule.close)
  {
    var t := rule.open + digits + x + rule.close;
    Pieces(rule.open, digits, x, rule.close);
    if rule.hex {
      forall i | |rule.open| <= i < |rule.open| + 6
        ensures IsHexDigit(t[i])
      {
        assert t[i] == digits[i - |rule.open|];
      }
    }
  }

  /** The slices of a four-part concatenation. */
  lemma Pieces(a: string, b: string, c: string, d: string)
    ensures (a + b + c + d)[..|a|] == a
    ensures (a + b + c + d)[|a|..|a| + |b|] == b
    ensures (a + b + c + d)[|a| + |b|..] == c + d
    ensures (c + d)[..|c|] == c && (c + d)[|c|..] == d && (c + d)[|c| + |d|..] == []
    ensures StartsWith((c + d)[|c|..], d)
    ensures forall i :: |a| <= i < |a| + |b| ==> (a + b + c + d)[i] == b[i - |a|]
  {
  }

  /** The closing delimiter is found at the end of `x` when its first
      character never occurs in `x`. */
  lemma CloseAfterContent(x: string, close: string)
    requires close != [] && close[0] !in x && NoTerminator(x)
    ensures FindClose(x + close, close) == Some(|x|)
  {
    var t := x + close;
    assert t[..|x|] == x;
    assert t[|x|..] == close;
    forall j | 0 <= j < |x|
      ensures !StartsWith(t[j..], close)
    {
      assert t[j..][0] == x[j];
    }
    FindCloseFirst(t, close, |x|);
  }

  /** The same for a colour delimiter `c#` when `x` holds no '#'. */
  lemma ColourCloseAfterContent(x: string, c: char)
    requires c != '#' && '#' !in x && NoTerminator(x)
    ensures FindClose(x + [c, '#'], [c, '#']) == Some(|x|)
  {
    var t := x + [c, '#'];
    assert t[..|x|] == x;
    assert t[|x|..] == [c, '#'];
    forall j | 0 <= j < |x|
      ensures !StartsWith(t[j..], [c, '#'])
    {
      assert t[j + 1] == if j + 1 < |x| then x[j + 1] else c;
    }
    FindCloseFirst(t, [c, '#'], |x|);
  }

  /** Text free of '*', '_' and '#' is never rewritten by any pass. */
  lemma PassesIdentity(t: string)
    requires Plain(t)
    ensures ReplaceAll(t, Bold) == t && ReplaceAll(t, Italic) == t && ReplaceAll(t, Underline) == t
    ensures ReplaceAll(t, Red) == t && ReplaceAll(t, Green) == t && ReplaceAll(t, Blue) == t
    ensures ReplaceAll(t, Hex) == t
  {
    AbsentOpenerIdentity(t, Bold);
    AbsentOpenerIdentity(t, Italic);
    AbsentOpenerIdentity(t, Underline);
    AbsentOpenerIdentity(t, Red);
    AbsentOpenerIdentity(t, Green);
    AbsentOpenerIdentity(t, Blue);
    AbsentOpenerIdentity(t, Hex);
  }

  /** Free of every character that opens a span. */
  predicate Plain(s: string) {
    '*' !in s && '_' !in s && '#' !in s
  }

  /** Content that may appear inside a span in the lemmas below. */
  predicate Inert(x: string) {
    Plain(x) && NoTerminator(x)
  }

  /** The tags of the non-hex rules hold no delimiter character. */
  lemma TagsPlain()
    ensures Plain(Bold.pre + Bold.post) && Plain(Italic.pre + Italic.post) && Plain(Underline.pre + Underline.post)
    ensures Plain(Red.pre + Red.post) && Plain(Green.pre + Green.post) && Plain(Blue.pre + Blue.post)
  {
    StyleTagsPlain();
    ColourTagsPlain();
  }

  lemma StyleTagsPlain()
    ensures Plain(Bold.pre + Bold.post) && Plain(Italic.pre + Italic.post) && Plain(Underline.pre + Underline.post)
  {
    PlainTags(Bold.pre, Bold.post);
    PlainTags(Italic.pre, Italic.post);
    PlainTags(Underline.pre, Underline.post);
  }

  lemma ColourTagsPlain()
    ensures Plain(Red.pre + Red.post) && Plain(Green.pre + Green.post) && Plain(Blue.pre + Blue.post)
  {
    ColourTagPlain(Red, "red");
    ColourTagPlain(Green, "green");
    ColourTagPlain(Blue, "blue");
  }

  lemma ColourTagPlain(rule: Rule, colour: string)
    requires rule in {Red, Green, Blue}
    requires colour == if rule == Red then "red" else if rule == Green then "green" else "blue"
    ensures Plain(rule.pre + rule.post)
  {
    FontTagPlain(colour);
  }

  /** The tags of a named font colour. */
  lemma FontTagPlain(colour: string)
    requires forall i :: 0 <= i < |colour| ==> 'a' <= colour[i] <= 'z'
    ensures Plain("<font color='" + colour + "'>" + "</font>")
  {
    var open := "<font color='" + colour + "'>";
    assert forall i :: 0 <= i < |open| ==> TagChar(open[i]);
    PlainTags(open, "</font>");
  }

  /** Tags built from letters, '<', '>', '/', '=', ' ' and quotes are plain. */
  lemma PlainTags(pre: string, post: string)
    requires forall i :: 0 <= i < |pre| ==> TagChar(pre[i])
    requires forall i :: 0 <= i < |post| ==> TagChar(post[i])
    ensures Plain(pre + post)
  {
    assert forall i :: 0 <= i < |pre + post| ==> TagChar((pre + post)[i]);
  }

  predicate TagChar(c: char) {
    'a' <= c <= 'z' || c == '<' || c == '>' || c == '/' || c == '=' || c == ' ' || c == '\''
  }

  /** Tags free of the delimiter characters around plain content. */
  lemma Enclosed(pre: string, x: string, post: string)
    requires Plain(pre + post) && Plain(x)
    ensures Plain(pre + x + post)
  {
    var t := pre + x + post;
    forall i | 0 <= i < |t|
      ensures t[i] != '*' && t[i] != '_' && t[i] != '#'
    {
      if i < |pre| {
        assert t[i] == (pre + post)[i];
      } else if i < |pre| + |x| {
        assert t[i] == x[i - |pre|];
      } else {
        assert t[i] == (pre + post)[i - |x|];
      }
    }
  }

  /** `**x**` becomes `<b>x</b>`. */
  lemma BoldSpan(x: string)
    requires Inert(x)
    ensures Format("**" + x + "**") == "<b>" + x + "</b>"
  {
    var m := "**" + x + "**";
    var b := "<b>" + x + "</b>";
    Unreserved(m);
    CloseAfterContent(x, "**");
    SpanReplaced(Bold, [], x);
    NoDigits(Bold, x);
    TagsPlain();
    Enclosed(Bold.pre, x, Bold.post);
    PassesIdentity(b);
    PassesVia(m, b, b, b, b, b, b, b);
  }

  /** A span without colour digits or middle tag. */
  lemma NoDigits(rule: Rule, x: string)
    requires rule.mid == []
    ensures rule.open + [] + x + rule.close == rule.open + x + rule.close
    ensures rule.pre + [] + rule.mid + x + rule.post == rule.pre + x + rule.post
  {
  }

  /** Chains the seven passes through known intermediate texts. */
  lemma PassesVia(m: string, a: string, b: string, c: string, d: string, e: string, f: string, g: string)
    requires ReplaceAll(m, Bold) == a && ReplaceAll(a, Italic) == b && ReplaceAll(b, Underline) == c
    requires ReplaceAll(c, Red) == d && ReplaceAll(d, Green) == e && ReplaceAll(e, Blue) == f
    requires ReplaceAll(f, Hex) == g
    ensures Passes(m) == g
  {
  }

  /** A pass whose opening delimiter starts nowhere leaves the text as it is. */
  lemma OpenerNowhere(t: string, rule: Rule)
    requires rule.open != []
    requires forall i :: 0 <= i < |t| ==> !StartsWith(t[i..], rule.open)
    ensures ReplaceAll(t, rule) == t
  {
    NoMatchIdentity(t, rule);
  }

  /** Characters that cannot open a span are copied through. */
  lemma {:induction false} CopyPrefix(x: string, t: string, rule: Rule)
    requires rule.open != [] && rule.open[0] !in x
    ensures ReplaceAll(x + t, rule) == x + ReplaceAll(t, rule)
    decreases |x|
  {
    if x == [] {
      assert x + t == t;
    } else {
      var u := x[1..] + t;
      assert x + t == [x[0]] + u;
      ReplaceAllCons(x[0], u, rule);
      CopyPrefix(x[1..], t, rule);
      assert [x[0]] + (x[1..] + ReplaceAll(t, rule)) == x + ReplaceAll(t, rule);
    }
  }

  /** A character that cannot open a span is copied through. */
  lemma ReplaceAllCons(c: char, u: string, rule: Rule)
    requires rule.open != [] && c != rule.open[0]
    ensures ReplaceAll([c] + u, rule) == [c] + ReplaceAll(u, rule)
  {
    var y := [c] + u;
    assert y[0] == c && y[1..] == u;
    FirstCharBars(y, rule.open);
    ReplaceAllCopy(y, rule);
  }

  /** One step of the scan when no match starts the text. */
  lemma ReplaceAllCopy(t: string, rule: Rule)
    requires rule.open != [] && t != [] && !StartsWith(t, rule.open)
    ensures ReplaceAll(t, rule) == [t[0]] + ReplaceAll(t[1..], rule)
  {
    assert MatchAt(t, rule).None?;
  }

  /** The reluctant search fails when the closing delimiter's first character never occurs. */
  lemma CloseAbsent(t: string, close: string)
    requires close != [] && close[0] !in t
    ensures FindClose(t, close).None?
  {
    forall k | 0 <= k < |t|
      ensures !StartsWith(t[k..], close)
    {
      assert t[k..][0] == t[k];
    }
  }

  /** A text framed by '#' with no '#' inside. */
  predicate HashFramed(m: string) {
    |m| >= 2 && m[0] == '#' && m[|m| - 1] == '#' && forall i :: 0 < i < |m| - 1 ==> m[i] != '#'
  }

  /** A colour rule `#c ... c#`. */
  predicate ColourRule(rule: Rule) {
    |rule.open| == 2 && rule.open[0] == '#' && rule.open[1] != '#' && !rule.hex
    && rule.close == [rule.open[1], '#']
  }

  /** Inside a '#'-framed body the colour close `c#` can only sit at the very end. */
  lemma FramedCloseAbsent(body: string, c: char)
    requires |body| >= 1 && body[|body| - 1] == '#' && forall i :: 0 <= i < |body| - 1 ==> body[i] != '#'
    requires |body| < 2 || body[|body| - 2] != c
    ensures FindClose(body, [c, '#']).None?
  {
    var k := FindClose(body, [c, '#']);
    if k.Some? {
      NoColourCloseAt(body, c, k.value);
    }
  }

  lemma NoColourCloseAt(body: string, c: char, j: nat)
    requires |body| >= 1 && body[|body| - 1] == '#' && forall i :: 0 <= i < |body| - 1 ==> body[i] != '#'
    requires |body| < 2 || body[|body| - 2] != c
    requires j <= |body|
    ensures !StartsWith(body[j..], [c, '#'])
  {
    if j + 2 <= |body| {
      assert body[j..][..2] == [body[j], body[j + 1]];
    }
  }

  /** A colour pass leaves a '#'-framed text alone unless the text is
      exactly one span of that colour. */
  lemma ColourIdle(m: string, rule: Rule)
    requires HashFramed(m) && ColourRule(rule)
    requires m[1] != rule.open[1] || m[|m| - 2] != rule.open[1]
    ensures ReplaceAll(m, rule) == m
  {
    forall i | 0 <= i < |m|
      ensures MatchAt(m[i..], rule).None?
    {
      if 0 < i < |m| - 1 {
        FirstCharBars(m[i..], rule.open);
      } else if i == 0 {
        assert m[0..] == m;
        if rule.OpensAt(m) {
          assert m[..2][1] == m[1];
          FramedCloseAbsent(m[2..], rule.open[1]);
        }
      }
    }
    NoMatchIdentity(m, rule);
  }

  /** The shape of a colour span `#c x c#`. */
  lemma ColourShape(c: char, x: string)
    requires c != '#' && '#' !in x && '*' !in x && '_' !in x && c != '*' && c != '_'
    ensures HashFramed(['#', c] + x + [c, '#'])
    ensures (['#', c] + x + [c, '#'])[1] == c && (['#', c] + x + [c, '#'])[|x| + 2] == c
    ensures '*' !in ['#', c] + x + [c, '#'] && '_' !in ['#', c] + x + [c, '#']
  {
    var m := ['#', c] + x + [c, '#'];
    forall i | 2 <= i < |x| + 2
      ensures m[i] == x[i - 2]
    {
    }
  }

  /** `*x*` becomes `<i>x</i>`. */
  lemma ItalicSpan(x: string)
    requires Inert(x)
    ensures Format("*" + x + "*") == "<i>" + x + "</i>"
  {
    var m := "*" + x + "*";
    var i := "<i>" + x + "</i>";
    Unreserved(m);
    BoldSkipsSingle(x);
    CloseAfterContent(x, "*");
    SpanReplaced(Italic, [], x);
    NoDigits(Italic, x);
    TagsPlain();
    Enclosed(Italic.pre, x, Italic.post);
    PassesIdentity(i);
    PassesVia(m, m, i, i, i, i, i, i);
  }

  /** The bold pass does not touch `*x*`: a lone '*' at each end never forms "**"
      with a partner, and "**" alone has nothing to close it. */
  lemma BoldSkipsSingle(x: string)
    requires '*' !in x
    ensures ReplaceAll("*" + x + "*", Bold) == "*" + x + "*"
  {
    var m := "*" + x + "*";
    if x == [] {
      assert m == "**";
      CloseAbsent([], "**");
      assert MatchAt(m, Bold).None?;
      assert m[1..] == "*";
      OpenerNowhere("*", Bold);
    } else {
      forall i | 0 <= i < |m|
        ensures !StartsWith(m[i..], "**")
      {
        if 0 < i < |m| - 1 {
          assert m[i] == x[i - 1];
          FirstCharBars(m[i..], "**");
        } else if i == 0 {
          assert m[1] == x[0];
          assert m[..2][1] == m[1];
        }
      }
      OpenerNowhere(m, Bold);
    }
  }

  /** `_x_` becomes `<u>x</u>`. */
  lemma UnderlineSpan(x: string)
    requires Inert(x)
    ensures Format("_" + x + "_") == "<u>" + x + "</u>"
  {
    var m := "_" + x + "_";
    var u := "<u>" + x + "</u>";
    Unreserved(m);
    AbsentOpenerIdentity(m, Bold);
    AbsentOpenerIdentity(m, Italic);
    CloseAfterContent(x, "_");
    SpanReplaced(Underline, [], x);
    NoDigits(Underline, x);
    TagsPlain();
    Enclosed(Underline.pre, x, Underline.post);
    PassesIdentity(u);
    PassesVia(m, m, m, u, u, u, u, u);
  }

  /** `__x__` is two empty underline spans around x: the reluctant group
      closes at the second underscore. */
  lemma DoubleUnderscore(x: string)
    requires Inert(x)
    ensures Format("__" + x + "__") == "<u></u>" + x + "<u></u>"
  {
    var m := "__" + x + "__";
    var u := "<u></u>" + x + "<u></u>";
    Unreserved(m);
    AbsentOpenerIdentity(m, Bold);
    AbsentOpenerIdentity(m, Italic);
    EmptyUnderlines(x);
    TagsPlain();
    Enclosed("<u></u>", x, "<u></u>");
    PassesIdentity(u);
    PassesVia(m, m, m, u, u, u, u, u);
  }

  lemma EmptyUnderlines(x: string)
    requires Inert(x)
    ensures ReplaceAll("__" + x + "__", Underline) == "<u></u>" + x + "<u></u>"
  {
    UnderscoresLead(x);
    CopyPrefix(x, "__", Underline);
    BareUnderlines();
    UnderlineTags();
  }

  lemma UnderscoresLead(x: string)
    ensures ReplaceAll("__" + x + "__", Underline) == Underline.pre + Underline.post + ReplaceAll(x + "__", Underline)
  {
    var m := "__" + x + "__";
    var tail := x + "__";
    assert m == Underline.open + Underline.open + tail;
    DoubledOpener(Underline, m, tail);
    LeadingEmptySpan(m, Underline, tail);
  }

  lemma BareUnderlines()
    ensures ReplaceAll("__", Underline) == "<u></u>"
  {
    assert "__" == Underline.open + Underline.open + [];
    DoubledOpener(Underline, "__", []);
    LeadingEmptySpan("__", Underline, []);
    UnderlineTags();
  }

  lemma UnderlineTags()
    ensures Underline.pre + Underline.post == "<u></u>"
  {
  }

  /** An opening "**" with no partner is an empty italic span followed by the text. */
  lemma UnterminatedBold(x: string)
    requires Inert(x)
    ensures Format("**" + x) == "<i></i>" + x
  {
    var m := "**" + x;
    var i := "<i></i>" + x;
    Unreserved(m);
    BoldUnclosed(x);
    ItalicEmpty(x);
    TagsPlain();
    Enclosed("<i></i>", x, []);
    assert "<i></i>" + x + [] == i;
    PassesIdentity(i);
    PassesVia(m, m, i, i, i, i, i, i);
  }

  lemma BoldUnclosed(x: string)
    requires '*' !in x
    ensures ReplaceAll("**" + x, Bold) == "**" + x
  {
    var m := "**" + x;
    assert m[2..] == x;
    CloseAbsent(x, "**");
    assert MatchAt(m, Bold).None?;
    var t := m[1..];
    assert t == "*" + x;
    forall i | 0 <= i < |t|
      ensures !StartsWith(t[i..], "**")
    {
      if i == 0 {
        if |x| > 0 {
          assert t[..2][1] == x[0];
        }
      } else {
        assert t[i] == x[i - 1];
        FirstCharBars(t[i..], "**");
      }
    }
    OpenerNowhere(t, Bold);
  }

  lemma ItalicEmpty(x: string)
    requires '*' !in x
    ensures ReplaceAll("**" + x, Italic) == "<i></i>" + x
  {
    var m := "**" + x;
    assert m == Italic.open + Italic.open + x;
    DoubledOpener(Italic, m, x);
    LeadingEmptySpan(m, Italic, x);
    AbsentOpenerIdentity(x, Italic);
    ItalicTags();
  }

  lemma ItalicTags()
    ensures Italic.pre + Italic.post == "<i></i>"
  {
  }

  /** A one-character delimiter written twice is an empty span. */
  lemma DoubledOpener(rule: Rule, m: string, rest: string)
    requires |rule.open| == 1 && rule.close == rule.open && !rule.hex
    requires m == rule.open + rule.open + rest
    ensures MatchAt(m, rule) == Some(Match([], [], rest))
  {
    var body := m[1..];
    assert body == [] + rule.close + rest;
    assert m[1..1] == [];
    FindCloseFirst(body, rule.close, 0);
    MatchParts(m, rule, [], body, [], rest);
  }

  /** An empty span at the start leaves its bare tags. */
  lemma LeadingEmptySpan(t: string, rule: Rule, rest: string)
    requires rule.open != [] && rule.mid == [] && MatchAt(t, rule) == Some(Match([], [], rest))
    ensures ReplaceAll(t, rule) == rule.pre + rule.post + ReplaceAll(rest, rule)
  {
    ReplaceAllAtMatch(t, rule, Match([], [], rest));
    DropEmpty(rule.pre, rule.mid, rule.post, ReplaceAll(rest, rule));
  }

  lemma DropEmpty(pre: string, mid: string, post: string, r: string)
    requires mid == []
    ensures pre + [] + mid + [] + post + r == pre + post + r
  {
  }

  lemma ColourRules()
    ensures ColourRule(Red) && ColourRule(Green) && ColourRule(Blue)
  {
  }

  /** A colour span whose own pass is reached unchanged comes out as its tags
      around the content, and the passes after it change nothing. */
  lemma ColourSpanPass(rule: Rule, c: char, x: string)
    requires ColourRule(rule) && rule.open[1] == c && rule.mid == []
    requires Plain(rule.pre + rule.post) && Inert(x)
    ensures ReplaceAll(['#', c] + x + [c, '#'], rule) == rule.pre + x + rule.post
    ensures Plain(rule.pre + x + rule.post)
  {
    assert rule.open == ['#', c];
    ColourCloseAfterContent(x, c);
    SpanReplaced(rule, [], x);
    NoDigits(rule, x);
    Enclosed(rule.pre, x, rule.post);
  }

  /** `#rx r#` becomes a red font span. */
  lemma RedSpan(x: string)
    requires Inert(x)
    ensures Format("#r" + x + "r#") == "<font color='red'>" + x + "</font>"
  {
    var m := ['#', 'r'] + x + ['r', '#'];
    var out := Red.pre + x + Red.post;
    Unreserved(m);
    ColourShape('r', x);
    AbsentOpenerIdentity(m, Bold);
    AbsentOpenerIdentity(m, Italic);
    AbsentOpenerIdentity(m, Underline);
    ColourRules();
    TagsPlain();
    ColourSpanPass(Red, 'r', x);
    PassesIdentity(out);
    PassesVia(m, m, m, m, out, out, out, out);
  }

  /** `#gx g#` becomes a green font span. */
  lemma GreenSpan(x: string)
    requires Inert(x)
    ensures Format("#g" + x + "g#") == "<font color='green'>" + x + "</font>"
  {
    var m := ['#', 'g'] + x + ['g', '#'];
    var out := Green.pre + x + Green.post;
    Unreserved(m);
    ColourShape('g', x);
    AbsentOpenerIdentity(m, Bold);
    AbsentOpenerIdentity(m, Italic);
    AbsentOpenerIdentity(m, Underline);
    ColourRules();
    ColourIdle(m, Red);
    TagsPlain();
    ColourSpanPass(Green, 'g', x);
    PassesIdentity(out);
    PassesVia(m, m, m, m, m, out, out, out);
  }

  /** `#bx b#` becomes a blue font span. */
  lemma BlueSpan(x: string)
    requires Inert(x)
    ensures Format("#b" + x + "b#") == "<font color='blue'>" + x + "</font>"
  {
    var m := ['#', 'b'] + x + ['b', '#'];
    var out := Blue.pre + x + Blue.post;
    Unreserved(m);
    ColourShape('b', x);
    AbsentOpenerIdentity(m, Bold);
    AbsentOpenerIdentity(m, Italic);
    AbsentOpenerIdentity(m, Underline);
    ColourRules();
    ColourIdle(m, Red);
    ColourIdle(m, Green);
    TagsPlain();
    ColourSpanPass(Blue, 'b', x);
    PassesIdentity(out);
    PassesVia(m, m, m, m, m, m, out, out);
  }

  predicate HexDigits(h: string) {
    forall i :: 0 <= i < |h| ==> IsHexDigit(h[i])
  }

  /** The shape of a hex colour span `#hhhhhh x#`. */
  lemma HexShape(h: string, x: string)
    requires |h| == 6 && HexDigits(h) && Inert(x)
    ensures HashFramed("#" + h + x + "#")
    ensures ("#" + h + x + "#")[1] == h[0]
    ensures ("#" + h + x + "#")[|h| + |x|] == (h + x)[|h| + |x| - 1]
    ensures '*' !in "#" + h + x + "#" && '_' !in "#" + h + x + "#"
  {
    var m := "#" + h + x + "#";
    forall i | 1 <= i < |h| + |x| + 1
      ensures m[i] == (h + x)[i - 1]
    {
    }
    forall i | 0 <= i < |h| + |x|
      ensures (h + x)[i] != '#' && (h + x)[i] != '*' && (h + x)[i] != '_'
    {
      if i < |h| {
        assert (h + x)[i] == h[i];
      } else {
        assert (h + x)[i] == x[i - |h|];
      }
    }
  }

  /** `#hhhhhh x#` becomes a font span of that colour, unless the digits start
      with 'b' and the text before the closing '#' ends with 'b': then the
      blue pass, which runs first, claims it. */
  lemma HexSpan(h: string, x: string)
    requires |h| == 6 && HexDigits(h) && Inert(x)
    requires !(h[0] == 'b' && (h + x)[|h| + |x| - 1] == 'b')
    ensures Format("#" + h + x + "#") == "<font color='#" + h + "'>" + x + "</font>"
  {
    var m := "#" + h + x + "#";
    var out := Hex.pre + h + Hex.mid + x + Hex.post;
    Unreserved(m);
    HexShape(h, x);
    AbsentOpenerIdentity(m, Bold);
    AbsentOpenerIdentity(m, Italic);
    AbsentOpenerIdentity(m, Underline);
    ColourRules();
    ColourIdle(m, Red);
    ColourIdle(m, Green);
    ColourIdle(m, Blue);
    CloseAfterContent(x, "#");
    SpanReplaced(Hex, h, x);
    PassesVia(m, m, m, m, m, m, m, out);
  }

  /** The blue pass shadows hex colours: `#b` followed by five hex digits,
      content ending in 'b' and '#' is formatted blue, with the five digits
      kept as text, rather than as the colour #b.... */
  lemma HexShadowedByBlue(d: string, x: string)
    requires |d| == 5 && HexDigits(d) && Inert(x)
    ensures HexDigits("b" + d)
    ensures Format("#" + ("b" + d) + (x + "b") + "#") == "<font color='blue'>" + d + x + "</font>"
  {
    BlueHexDigits(d);
    InertAfterDigits(d, x);
    Regroup(d, x);
    BlueSpan(d + x);
    BlueTags(d, x);
  }

  lemma BlueHexDigits(d: string)
    requires HexDigits(d)
    ensures HexDigits("b" + d)
  {
    assert forall i :: 1 <= i <= |d| ==> ("b" + d)[i] == d[i - 1];
  }

  lemma InertAfterDigits(d: string, x: string)
    requires HexDigits(d) && Inert(x)
    ensures Inert(d + x)
  {
    forall i | 0 <= i < |d| + |x|
      ensures (d + x)[i] != '#' && (d + x)[i] != '*' && (d + x)[i] != '_' && !IsLineTerminator((d + x)[i])
    {
      if i < |d| {
        assert (d + x)[i] == d[i];
      } else {
        assert (d + x)[i] == x[i - |d|];
      }
    }
  }

  lemma Regroup(d: string, x: string)
    ensures "#" + ("b" + d) + (x + "b") + "#" == "#b" + (d + x) + "b#"
  {
  }

  lemma BlueTags(d: string, x: string)
    ensures "<font color='blue'>" + (d + x) + "</font>" == "<font color='blue'>" + d + x + "</font>"
  {
  }
}
