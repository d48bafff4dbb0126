/**
 * The text utilities of McQuad: the `{}` place-holder formatter, removal of
 * `#` comment lines, and hexadecimal reading and writing.
 */
module StringUtils {
  import opened Wrappers
  import opened JavaInts

  // ---------------------------------------------------------------- format

  const FORMAT_TOKEN: string := "{}"
  const NULL_REP: string := "{null}"

  /** The text inserted for one argument: its `toString()`, or `{null}` for null. */
  function Rep(o: Option<string>): string
  {
    if o.None? then NULL_REP else o.value
  }

  predicate TokenAt(s: string, p: int)
  {
    0 <= p && p + 2 <= |s| && s[p] == '{' && s[p + 1] == '}'
  }

  /** `StringBuilder.indexOf("{}", from)`: the first token at or after `from`, or -1. */
  function IndexOf(s: string, from: int): (p: int)
    ensures p == -1 || (TokenAt(s, p) && from <= p)
    ensures forall q :: from <= q < (if p < 0 then |s| else p) ==> !TokenAt(s, q)
    decreases |s| - from
  {
    if from < 0 then IndexOf(s, 0)
    else if from + 2 > |s| then -1
    else if TokenAt(s, from) then from
    else IndexOf(s, from + 1)
  }

  /** The text with the two token characters at `p` replaced by `rep`. */
  function ReplaceAt(s: string, p: int, rep: string): string
    requires TokenAt(s, p)
  {
    s[..p] + rep + s[p + 2..]
  }

  /**
   * The loop of the formatter from state (`sb`, `i`, `p`): find the next
   * token at or after `p + 1`, replace it with argument `i`, continue.
   */
  function FormatFrom(sb: string, args: seq<Option<string>>, i: nat, p: int): string
    requires i <= |args|
    decreases |args| - i
  {
    if i < |args| then
      var q := IndexOf(sb, p + 1);
      if q >= 0 then FormatFrom(ReplaceAt(sb, q, Rep(args[i])), args, i + 1, q) else sb
    else sb
  }

  /** The formatter as written, for a non-null format string. */
  function FormatSpec(fmt: string, args: seq<Option<string>>): string
  {
    if |args| == 0 then fmt else FormatFrom(fmt, args, 0, -1)
  }

  /**
   * `format(fmt, o...)`: a null format string raises NullPointerException;
   * otherwise the place-holders are replaced as `FormatSpec` describes.
   */
  method Format(fmt: Option<string>, args: seq<Option<string>>) returns (r: Result<string>)
    ensures fmt.None? ==> r == Failure(NullPointer)
    ensures fmt.Some? ==> r == Success(FormatSpec(fmt.value, args))
  {
    if fmt.None? {
      return Failure(NullPointer);
    }
    if |args| == 0 {
      return Success(fmt.value);
    }
    var i := 0;
    var p := -1;
    var sb := fmt.value;
    while i < |args|
      invariant 0 <= i <= |args|
      invariant FormatFrom(sb, args, i, p) == FormatFrom(fmt.value, args, 0, -1)
      decreases |args| - i
    {
      p := IndexOf(sb, p + 1);
      if p < 0 {
        break;
      }
      sb := ReplaceAt(sb, p, Rep(args[i]));
      i := i + 1;
    }
    return Success(sb);
  }

  /**
   * The documented meaning of the formatter: each `{}` of the format string,
   * left to right, is replaced by the next argument's text, until the
   * arguments run out; inserted text is never rescanned.
   */
  function ReplaceTokens(s: string, args: seq<Option<string>>): string
    decreases |s|
  {
    if |args| == 0 || |s| == 0 then s
    else if TokenAt(s, 0) then Rep(args[0]) + ReplaceTokens(s[2..], args[1..])
    else [s[0]] + ReplaceTokens(s[1..], args)
  }

  /**
   * The formatter as intended: after a replacement the search resumes just
   * past the inserted text.
   */
  function IntendedFrom(sb: string, args: seq<Option<string>>, i: nat, from: int): string
    requires i <= |args|
    decreases |args| - i
  {
    if i < |args| then
      var q := IndexOf(sb, from);
      if q >= 0 then IntendedFrom(ReplaceAt(sb, q, Rep(args[i])), args, i + 1, q + |Rep(args[i])|) else sb
    else sb
  }

  function IntendedFormat(fmt: string, args: seq<Option<string>>): string
  {
    IntendedFrom(fmt, args, 0, 0)
  }

  /** Text without a token before position `q` is copied unchanged up to `q`. */
  lemma {:induction false} ReplaceTokensSkip(s: string, args: seq<Option<string>>, q: nat)
    requires |args| > 0 && q <= |s|
    requires forall j :: 0 <= j < q ==> !TokenAt(s, j)
    ensures ReplaceTokens(s, args) == s[..q] + ReplaceTokens(s[q..], args)
    decreases q
  {
    if q > 0 {
      var t := s[1..];
      assert !TokenAt(s, 0);
      assert ReplaceTokens(s, args) == [s[0]] + ReplaceTokens(t, args);
      forall j | 0 <= j < q - 1 ensures !TokenAt(t, j) {
        assert !TokenAt(s, j + 1);
      }
      ReplaceTokensSkip(t, args, q - 1);
      assert t[q - 1..] == s[q..];
      assert s[..q] == [s[0]] + t[..q - 1];
    } else {
      assert s[..0] == [] && s[0..] == s;
    }
  }

  /** Positions of `rest` are positions of `pre + rest`, shifted by `|pre|`. */
  lemma TokenAtShift(pre: string, rest: string, j: int)
    requires 0 <= j
    ensures TokenAt(pre + rest, |pre| + j) == TokenAt(rest, j)
  {
  }

  /** Replacing a token of `rest` inside `pre + rest` splits the text around it. */
  lemma ReplaceInTail(pre: string, rest: string, k: int, rep: string)
    requires TokenAt(rest, k)
    ensures TokenAt(pre + rest, |pre| + k)
    ensures ReplaceAt(pre + rest, |pre| + k, rep) == (pre + rest[..k] + rep) + rest[k + 2..]
  {
    TokenAtShift(pre, rest, k);
    var sb := pre + rest;
    assert sb[..|pre| + k] == pre + rest[..k];
    assert sb[|pre| + k + 2..] == rest[k + 2..];
  }

  /** The documented replacement of a text whose first token is at `k`. */
  lemma ReplaceTokensAt(rest: string, tail: seq<Option<string>>, k: int)
    requires |tail| > 0 && TokenAt(rest, k)
    requires forall j :: 0 <= j < k ==> !TokenAt(rest, j)
    ensures ReplaceTokens(rest, tail) == rest[..k] + (Rep(tail[0]) + ReplaceTokens(rest[k + 2..], tail[1..]))
  {
    ReplaceTokensSkip(rest, tail, k);
    assert rest[k..][2..] == rest[k + 2..];
  }

  /** No token of `rest` starts before the first one `pre + rest` has at or after `|pre|`. */
  lemma TokenFreePrefix(pre: string, rest: string, q: int)
    requires q == IndexOf(pre + rest, |pre|)
    ensures forall j :: 0 <= j < (if q < 0 then |rest| else q - |pre|) ==> !TokenAt(rest, j)
  {
    forall j | 0 <= j < (if q < 0 then |rest| else q - |pre|) ensures !TokenAt(rest, j) {
      TokenAtShift(pre, rest, j);
    }
  }

  /** One step of the intended formatter: the token at `q` replaced by `rep`, giving `sb'`. */
  lemma IntendedStep(sb: string, args: seq<Option<string>>, i: nat, from: int, q: int, rep: string, sb': string, from': int)
    requires i < |args| && q == IndexOf(sb, from) && q >= 0
    requires rep == Rep(args[i]) && sb' == ReplaceAt(sb, q, rep) && from' == q + |rep|
    ensures IntendedFrom(sb, args, i, from) == IntendedFrom(sb', args, i + 1, from')
  {
  }

  lemma ConcatRegroup(a: string, b: string, c: string, d: string)
    ensures a + (b + (c + d)) == (a + b + c) + d
  {
  }

  /** `IntendedFromTail` when no token is left. */
  lemma IntendedFromTailDone(pre: string, rest: string, args: seq<Option<string>>, i: nat)
    requires i < |args| && IndexOf(pre + rest, |pre|) < 0
    ensures IntendedFrom(pre + rest, args, i, |pre|) == pre + ReplaceTokens(rest, args[i..])
  {
    TokenFreePrefix(pre, rest, IndexOf(pre + rest, |pre|));
    ReplaceTokensSkip(rest, args[i..], |rest|);
    assert rest[..|rest|] == rest && rest[|rest|..] == [];
    assert ReplaceTokens(rest, args[i..]) == rest;
  }

  /** The documented replacement, split at the first token `k` of `rest`. */
  lemma ReplaceTokensSplit(pre: string, rest: string, args: seq<Option<string>>, i: nat, k: int)
    requires i < |args| && k == IndexOf(pre + rest, |pre|) - |pre| && k >= 0
    ensures ReplaceTokens(rest, args[i..]) == rest[..k] + (Rep(args[i]) + ReplaceTokens(rest[k + 2..], args[i + 1..]))
  {
    var tail := args[i..];
    TokenFreePrefix(pre, rest, k + |pre|);
    TokenAtShift(pre, rest, k);
    ReplaceTokensAt(rest, tail, k);
    assert tail[1..] == args[i + 1..];
  }

  /** The intended formatter, one replacement on. */
  lemma IntendedSplit(pre: string, rest: string, args: seq<Option<string>>, i: nat, k: int)
    requires i < |args| && k == IndexOf(pre + rest, |pre|) - |pre| && k >= 0
    ensures var pre' := pre + rest[..k] + Rep(args[i]);
      IntendedFrom(pre + rest, args, i, |pre|) == IntendedFrom(pre' + rest[k + 2..], args, i + 1, |pre'|)
  {
    var q := k + |pre|;
    var rep := Rep(args[i]);
    var pre' := pre + rest[..k] + rep;
    assert ReplaceAt(pre + rest, q, rep) == pre' + rest[k + 2..] by {
      TokenAtShift(pre, rest, k);
      ReplaceInTail(pre, rest, k, rep);
    }
    assert |pre'| == q + |rep|;
    IntendedStep(pre + rest, args, i, |pre|, q, rep, pre' + rest[k + 2..], |pre'|);
  }

  /** `IntendedFromTail` one token on, given its claim for the text after that token. */
  lemma IntendedFromTailStep(pre: string, rest: string, args: seq<Option<string>>, i: nat, k: int)
    requires i < |args| && k == IndexOf(pre + rest, |pre|) - |pre| && k >= 0
    requires var pre' := pre + rest[..k] + Rep(args[i]);
      IntendedFrom(pre' + rest[k + 2..], args, i + 1, |pre'|) == pre' + ReplaceTokens(rest[k + 2..], args[i + 1..])
    ensures IntendedFrom(pre + rest, args, i, |pre|) == pre + ReplaceTokens(rest, args[i..])
  {
    ReplaceTokensSplit(pre, rest, args, i, k);
    IntendedSplit(pre, rest, args, i, k);
    ConcatRegroup(pre, rest[..k], Rep(args[i]), ReplaceTokens(rest[k + 2..], args[i + 1..]));
  }

  lemma {:induction false} IntendedFromTail(pre: string, rest: string, args: seq<Option<string>>, i: nat)
    requires i <= |args|
    ensures IntendedFrom(pre + rest, args, i, |pre|) == pre + ReplaceTokens(rest, args[i..])
    decreases |args| - i
  {
    if i == |args| {
      assert args[i..] == [];
      return;
    }
    var q := IndexOf(pre + rest, |pre|);
    if q < 0 {
      IntendedFromTailDone(pre, rest, args, i);
    } else {
      var k := q - |pre|;
      TokenAtShift(pre, rest, k);
      IntendedFromTail(pre + rest[..k] + Rep(args[i]), rest[k + 2..], args, i + 1);
      IntendedFromTailStep(pre, rest, args, i, k);
    }
  }

  /** The intended formatter replaces exactly the format string's own tokens, left to right. */
  lemma IntendedFormatReplacesTokens(fmt: string, args: seq<Option<string>>)
    ensures IntendedFormat(fmt, args) == ReplaceTokens(fmt, args)
  {
    IntendedFromTail([], fmt, args, 0);
    assert [] + fmt == fmt;
  }

  /** Searching from `a` or from `b` finds the same token when none starts in between. */
  lemma {:induction false} IndexOfSkip(s: string, a: int, b: int)
    requires 0 <= a <= b
    requires forall j :: a <= j < b ==> !TokenAt(s, j)
    ensures IndexOf(s, a) == IndexOf(s, b)
    decreases b - a
  {
    if a < b && a + 2 <= |s| {
      IndexOfSkip(s, a + 1, b);
    }
  }

  /** Non-empty text without a `{`. */
  predicate PlainText(t: string)
  {
    |t| > 0 && '{' !in t
  }

  /** No token starts inside plain inserted text after its first character. */
  lemma PlainInsertSkipped(sb: string, q: int, rep: string)
    requires TokenAt(sb, q) && PlainText(rep)
    ensures IndexOf(ReplaceAt(sb, q, rep), q + 1) == IndexOf(ReplaceAt(sb, q, rep), q + |rep|)
  {
    var sb' := ReplaceAt(sb, q, rep);
    forall j | q + 1 <= j < q + |rep| ensures !TokenAt(sb', j) {
      assert sb'[j] == rep[j - q];
      assert rep[j - q] in rep;
    }
    IndexOfSkip(sb', q + 1, q + |rep|);
  }

  /** The formatter's result depends on its last position only through the next token found. */
  lemma FormatResume(sb: string, args: seq<Option<string>>, i: nat, p: int, p': int)
    requires i <= |args| && IndexOf(sb, p + 1) == IndexOf(sb, p' + 1)
    ensures FormatFrom(sb, args, i, p) == FormatFrom(sb, args, i, p')
  {
  }

  /** The formatter, one replacement on: it goes on as if the search resumed after the inserted text. */
  lemma FormatSplit(pre: string, rest: string, args: seq<Option<string>>, i: nat, k: int)
    requires i < |args| && PlainText(Rep(args[i]))
    requires k == IndexOf(pre + rest, |pre|) - |pre| && k >= 0
    ensures var pre' := pre + rest[..k] + Rep(args[i]);
      FormatFrom(pre + rest, args, i, |pre| - 1) == FormatFrom(pre' + rest[k + 2..], args, i + 1, |pre'| - 1)
  {
    var q := k + |pre|;
    var rep := Rep(args[i]);
    var pre' := pre + rest[..k] + rep;
    var sb' := pre' + rest[k + 2..];
    assert ReplaceAt(pre + rest, q, rep) == sb' by {
      TokenAtShift(pre, rest, k);
      ReplaceInTail(pre, rest, k, rep);
    }
    assert FormatFrom(pre + rest, args, i, |pre| - 1) == FormatFrom(sb', args, i + 1, q);
    assert IndexOf(sb', q + 1) == IndexOf(sb', |pre'| - 1 + 1) by {
      assert |pre'| - 1 + 1 == q + |rep|;
      PlainInsertSkipped(pre + rest, q, rep);
    }
    FormatResume(sb', args, i + 1, q, |pre'| - 1);
  }

  /** `FormatFromTail` one token on, given its claim for the text after that token. */
  lemma FormatFromTailStep(pre: string, rest: string, args: seq<Option<string>>, i: nat, k: int)
    requires i < |args| && PlainText(Rep(args[i]))
    requires k == IndexOf(pre + rest, |pre|) - |pre| && k >= 0
    requires var pre' := pre + rest[..k] + Rep(args[i]);
      FormatFrom(pre' + rest[k + 2..], args, i + 1, |pre'| - 1) == pre' + ReplaceTokens(rest[k + 2..], args[i + 1..])
    ensures FormatFrom(pre + rest, args, i, |pre| - 1) == pre + ReplaceTokens(rest, args[i..])
  {
    ReplaceTokensSplit(pre, rest, args, i, k);
    FormatSplit(pre, rest, args, i, k);
    ConcatRegroup(pre, rest[..k], Rep(args[i]), ReplaceTokens(rest[k + 2..], args[i + 1..]));
  }

  /** `FormatFromTail` when no token is left. */
  lemma FormatFromTailDone(pre: string, rest: string, args: seq<Option<string>>, i: nat)
    requires i < |args| && IndexOf(pre + rest, |pre|) < 0
    ensures FormatFrom(pre + rest, args, i, |pre| - 1) == pre + ReplaceTokens(rest, args[i..])
  {
    IntendedFromTailDone(pre, rest, args, i);
  }

  /**
   * With plain arguments, the formatter run on `pre + rest` with its search
   * starting at `rest` replaces exactly the tokens of `rest`.
   */
  lemma {:induction false} FormatFromTail(pre: string, rest: string, args: seq<Option<string>>, i: nat)
    requires i <= |args|
    requires forall j :: 0 <= j < |args| ==> PlainText(Rep(args[j]))
    ensures FormatFrom(pre + rest, args, i, |pre| - 1) == pre + ReplaceTokens(rest, args[i..])
    decreases |args| - i
  {
    if i == |args| {
      assert args[i..] == [];
      return;
    }
    var q := IndexOf(pre + rest, |pre|);
    if q < 0 {
      FormatFromTailDone(pre, rest, args, i);
    } else {
      var k := q - |pre|;
      TokenAtShift(pre, rest, k);
      FormatFromTail(pre + rest[..k] + Rep(args[i]), rest[k + 2..], args, i + 1);
      FormatFromTailStep(pre, rest, args, i, k);
    }
  }

  /**
   * When every argument's text is non-empty and contains no `{`, the
   * formatter as written does what is documented.
   */
  lemma FormatSpecPlainArguments(fmt: string, args: seq<Option<string>>)
    requires forall j :: 0 <= j < |args| ==> PlainText(Rep(args[j]))
    ensures FormatSpec(fmt, args) == ReplaceTokens(fmt, args)
  {
    if |args| > 0 {
      FormatFromTail([], fmt, args, 0);
      assert [] + fmt == fmt;
    }
  }

  /** An empty argument makes the formatter skip a token that immediately follows it. */
  lemma FormatEmptyArgumentSkipsToken()
    ensures FormatSpec("{}{}", [Some(""), Some("X")]) == "{}"
    ensures ReplaceTokens("{}{}", [Some(""), Some("X")]) == "X"
  {
    var args := [Some(""), Some("X")];
    assert IndexOf("{}{}", 0) == 0;
    assert ReplaceAt("{}{}", 0, "") == "{}";
    assert IndexOf("{}", 1) == -1;
    assert ReplaceTokens("{}", args[1..]) == "X" + ReplaceTokens("", []);
  }

  /** Text inserted for one token is itself searched from its second character. */
  lemma FormatRescansInsertedText()
    ensures FormatSpec("{}", [Some("{{}"), Some("X")]) == "{X"
  {
    assert IndexOf("{}", 0) == 0;
    assert ReplaceAt("{}", 0, "{{}") == "{{}";
    assert IndexOf("{{}", 1) == 1;
    assert ReplaceAt("{{}", 1, "X") == "{X";
  }

  // ------------------------------------------------------ comment lines

  /** The line terminators of `java.util.regex` (`\r\n` counts as one). */
  predicate IsTerminator(c: char)
  {
    c == '\n' || c == '\r' || c == '\U{0085}' || c == '\U{2028}' || c == '\U{2029}'
  }

  predicate NoTerminator(line: string)
  {
    forall k :: 0 <= k < |line| ==> !IsTerminator(line[k])
  }

  /** The index of the first terminator of `s` at or after `from`, or `|s|`. */
  function LineEnd(s: string, from: nat): (k: nat)
    requires from <= |s|
    ensures from <= k <= |s|
    ensures k < |s| ==> IsTerminator(s[k])
    ensures NoTerminator(s[from..k])
    decreases |s| - from
  {
    if from == |s| || IsTerminator(s[from]) then from else LineEnd(s, from + 1)
  }

  /**
   * The lines that `^(.*)$` finds in multi-line mode: the text between
   * terminators; `^` never matches at the end of the input, so a final
   * terminator (or an empty input) contributes no empty line.
   */
  function Lines(s: string): (ls: seq<string>)
    ensures forall j :: 0 <= j < |ls| ==> NoTerminator(ls[j])
    decreases |s|
  {
    if |s| == 0 then []
    else
      var k := LineEnd(s, 0);
      var next := if k + 1 < |s| && s[k] == '\r' && s[k + 1] == '\n' then k + 2
                  else if k < |s| then k + 1 else k;
      [s[..k]] + Lines(s[next..])
  }

  predicate IsComment(line: string) { |line| > 0 && line[0] == '#' }

  /** The lines that are kept, each followed by the line separator `eol`. */
  function KeptText(lines: seq<string>, eol: string): string
  {
    if |lines| == 0 then ""
    else (if IsComment(lines[0]) then "" else lines[0] + eol) + KeptText(lines[1..], eol)
  }

  function Kept(lines: seq<string>): seq<string>
  {
    if |lines| == 0 then [] else (if IsComment(lines[0]) then [] else [lines[0]]) + Kept(lines[1..])
  }

  /**
   * `stripCommentLines(s)`: every line not starting with `#`, followed by the
   * platform line separator `eol` (a parameter here: it is a system property).
   */
  method StripCommentLines(s: string, eol: string) returns (r: string)
    ensures r == KeptText(Lines(s), eol)
  {
    var lines := Lines(s);
    var sb := "";
    var i := 0;
    while i < |lines|
      invariant 0 <= i <= |lines|
      invariant sb + KeptText(lines[i..], eol) == KeptText(lines, eol)
    {
      assert lines[i..][1..] == lines[i + 1..];
      if !IsComment(lines[i]) {
        sb := sb + lines[i] + eol;
      }
      i := i + 1;
    }
    assert lines[i..] == [];
    return sb;
  }

  lemma {:induction false} LinesOfLine(line: string, rest: string)
    requires NoTerminator(line)
    ensures Lines(line + "\n" + rest) == [line] + Lines(rest)
  {
    var s := line + "\n" + rest;
    LineEndAt(s, 0, |line|);
    assert s[..|line|] == line;
    assert s[|line| + 1..] == rest;
  }

  lemma {:induction false} LineEndAt(s: string, from: nat, k: nat)
    requires from <= k < |s| && IsTerminator(s[k])
    requires forall j :: from <= j < k ==> !IsTerminator(s[j])
    ensures LineEnd(s, from) == k
    decreases k - from
  {
    if from < k {
      LineEndAt(s, from + 1, k);
    }
  }

  /**
   * With `\n` as the separator, splitting the output into lines again gives
   * exactly the input's non-comment lines, in order.
   */
  lemma {:induction false} KeptTextLines(lines: seq<string>)
    requires forall j :: 0 <= j < |lines| ==> NoTerminator(lines[j])
    ensures Lines(KeptText(lines, "\n")) == Kept(lines)
  {
    if |lines| > 0 {
      KeptTextLines(lines[1..]);
      if !IsComment(lines[0]) {
        LinesOfLine(lines[0], KeptText(lines[1..], "\n"));
        assert KeptText(lines, "\n") == lines[0] + "\n" + KeptText(lines[1..], "\n");
        assert Kept(lines) == [lines[0]] + Kept(lines[1..]);
      } else {
        assert KeptText(lines, "\n") == KeptText(lines[1..], "\n");
        assert Kept(lines) == Kept(lines[1..]);
      }
    }
  }

  lemma StripCommentLinesKeepsLines(s: string)
    ensures Lines(KeptText(Lines(s), "\n")) == Kept(Lines(s))
    ensures forall j :: 0 <= j < |Kept(Lines(s))| ==> !IsComment(Kept(Lines(s))[j])
  {
    KeptTextLines(Lines(s));
    KeptNoComment(Lines(s));
  }

  lemma {:induction false} KeptNoComment(lines: seq<string>)
    ensures forall j :: 0 <= j < |Kept(lines)| ==> !IsComment(Kept(lines)[j])
  {
    if |lines| > 0 {
      KeptNoComment(lines[1..]);
    }
  }

  // ---------------------------------------------------------------- hex

  function HexDigitValue(c: char): (v: Option<nat>)
    ensures v.Some? ==> v.value < 16
  {
    if '0' <= c <= '9' then Some(c as int - '0' as int)
    else if 'a' <= c <= 'f' then Some(c as int - 'a' as int + 10)
    else if 'A' <= c <= 'F' then Some(c as int - 'A' as int + 10)
    else None
  }

  predicate AllHexDigits(s: string) { forall k :: 0 <= k < |s| ==> HexDigitValue(s[k]).Some? }

  function HexValue(s: string): nat
    requires AllHexDigits(s)
    decreases |s|
  {
    if |s| == 0 then 0 else HexValue(s[..|s| - 1]) * 16 + HexDigitValue(s[|s| - 1]).value
  }

  /**
   * `Integer.parseInt(h, 16)` and `Long.parseLong(h, 16)`: an optional sign,
   * at least one hex digit, and a value in [lo, hi]; anything else raises
   * NumberFormatException.
   */
  function ParseHex(h: string, lo: int, hi: int): (r: Result<int>)
    ensures r.Success? ==> lo <= r.value <= hi
  {
    var neg := |h| > 0 && h[0] == '-';
    var digits := if |h| > 0 && (h[0] == '-' || h[0] == '+') then h[1..] else h;
    if |digits| == 0 || !AllHexDigits(digits) then Failure(NumberFormat(h))
    else
      var m: int := HexValue(digits);
      var v := if neg then -m else m;
      if lo <= v <= hi then Success(v) else Failure(NumberFormat(h))
  }

  function Strip0x(s: string): string
  {
    if |s| >= 2 && s[..2] == "0x" then s[2..] else s
  }

  /** `hex(s)`: the int a hex string denotes, with any leading `0x` stripped. */
  function Hex(s: string): (r: Result<Int32>)
    ensures r.Failure? ==> r.error == NumberFormat(Strip0x(s))
    ensures r.Success? <==> HexAsLong(s).Success? && IsInt32(HexAsLong(s).value)
    ensures r.Success? ==> HexAsLong(s) == Success(r.value)
  {
    var p := ParseHex(Strip0x(s), -0x8000_0000, 0x7fff_ffff);
    if p.Success? then Success(p.value) else Failure(p.error)
  }

  /** `hexAsLong(s)`: the long a hex string denotes, with any leading `0x` stripped. */
  function HexAsLong(s: string): (r: Result<Int64>)
    ensures r.Failure? ==> r.error == NumberFormat(Strip0x(s))
    ensures r.Success? ==> |Strip0x(s)| > 0 && (r.value < 0 ==> Strip0x(s)[0] == '-')
  {
    var p := ParseHex(Strip0x(s), -0x8000_0000_0000_0000, 0x7fff_ffff_ffff_ffff);
    if p.Success? then Success(p.value) else Failure(p.error)
  }

  function HexChar(d: nat): (c: char)
    requires d < 16
    ensures HexDigitValue(c) == Some(d)
  {
    if d < 10 then (('0' as int) + d) as char else (('a' as int) + d - 10) as char
  }

  /** `Long.toHexString` of a non-negative value: lower-case, no leading zeros. */
  function HexDigits(n: nat): (s: string)
    decreases n
  {
    if n < 16 then [HexChar(n)] else HexDigits(n / 16) + [HexChar(n % 16)]
  }

  /** `asHex(int)`: `0x` and the unsigned 32-bit pattern in hex. */
  function AsHexInt(v: Int32): (s: string)
    ensures |s| > 2 && s[..2] == "0x" && AllHexDigits(s[2..])
    ensures HexValue(s[2..]) == Unsigned32(v)
    ensures |s| == 3 || s[2] != '0'
  {
    HexDigitsValue(Unsigned32(v));
    var s := "0x" + HexDigits(Unsigned32(v));
    assert s[2..] == HexDigits(Unsigned32(v));
    s
  }

  /** `asHex(long)`: `0x` and the unsigned 64-bit pattern in hex. */
  function AsHexLong(v: Int64): (s: string)
    ensures |s| > 2 && s[..2] == "0x" && AllHexDigits(s[2..])
    ensures HexValue(s[2..]) == if v < 0 then v + TWO_64 else v
    ensures |s| == 3 || s[2] != '0'
  {
    var u: nat := if v < 0 then v + TWO_64 else v;
    HexDigitsValue(u);
    var s := "0x" + HexDigits(u);
    assert s[2..] == HexDigits(u);
    s
  }

  lemma {:induction false} HexDigitsValue(n: nat)
    ensures |HexDigits(n)| > 0 && AllHexDigits(HexDigits(n))
    ensures HexValue(HexDigits(n)) == n
    ensures HexDigits(n)[0] != '-' && HexDigits(n)[0] != '+'
    ensures |HexDigits(n)| == 1 || HexDigits(n)[0] != '0'
  {
    if n >= 16 {
      HexDigitsValue(n / 16);
      var s := HexDigits(n);
      assert s[..|s| - 1] == HexDigits(n / 16);
    }
  }

  /** What `asHex(int)` writes for a non-negative int, `hex` reads back. */
  lemma HexOfAsHexInt(v: Int32)
    requires v >= 0
    ensures Hex(AsHexInt(v)) == Success(v)
  {
    HexDigitsValue(v);
    assert Strip0x(AsHexInt(v)) == HexDigits(v);
  }

  /** ... and for a negative int it does not: the unsigned pattern overflows `parseInt`. */
  lemma HexOfAsHexIntNegative(v: Int32)
    requires v < 0
    ensures Hex(AsHexInt(v)).Failure?
  {
    HexDigitsValue(v + TWO_32);
    assert Strip0x(AsHexInt(v)) == HexDigits(v + TWO_32);
  }

  /** `hexAsLong` reads back the unsigned pattern that `asHex(int)` writes. */
  lemma HexAsLongOfAsHexInt(v: Int32)
    ensures HexAsLong(AsHexInt(v)) == Success(Unsigned32(v))
  {
    HexDigitsValue(Unsigned32(v));
    assert Strip0x(AsHexInt(v)) == HexDigits(Unsigned32(v));
  }

  /** What `asHex(long)` writes for a non-negative long, `hexAsLong` reads back. */
  lemma HexAsLongOfAsHexLong(v: Int64)
    requires v >= 0
    ensures HexAsLong(AsHexLong(v)) == Success(v)
  {
    HexDigitsValue(v);
    assert Strip0x(AsHexLong(v)) == HexDigits(v);
  }

  /** Upper- and lower-case hex digits have the same value. */
  lemma {:induction false} HexValueUpperCase(s: string, t: string)
    requires |s| == |t| && AllHexDigits(s)
    requires forall k :: 0 <= k < |s| ==> t[k] == s[k] || ('a' <= s[k] <= 'f' && t[k] as int == s[k] as int - 32)
    ensures AllHexDigits(t) && HexValue(t) == HexValue(s)
    decreases |s|
  {
    assert forall k :: 0 <= k < |s| ==> HexDigitValue(t[k]) == HexDigitValue(s[k]);
    if |s| > 0 {
      HexValueUpperCase(s[..|s| - 1], t[..|t| - 1]);
    }
  }

  /** Leading zeros do not change the value. */
  lemma {:induction false} HexValueLeadingZero(s: string)
    requires AllHexDigits(s)
    ensures AllHexDigits("0" + s) && HexValue("0" + s) == HexValue(s)
    decreases |s|
  {
    var z := "0" + s;
    assert forall k :: 0 <= k < |z| ==> HexDigitValue(z[k]).Some?;
    if |s| > 0 {
      HexValueLeadingZero(s[..|s| - 1]);
      assert z[..|z| - 1] == "0" + s[..|s| - 1];
    }
  }
}
