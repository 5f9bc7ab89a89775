/**
 * The part of PHP's vsprintf that description templates use: `%%` for a
 * literal percent sign, `%N$s` for the N-th argument (counting from one) and
 * `%s` for the next argument in turn. A null argument prints as the empty
 * string.
 */
module Printf {
  import opened Wrappers

  datatype FormatError =
    | TooFewArguments          // a placeholder names an argument that is not there
    | ArgumentNumberZero       // `%0$s`
    | MissingSpecifier         // a lone `%` ends the template
    | UnsupportedSpecifier     // any other conversion, which this model does not cover

  function ArgumentText(a: Option<string>): string
  {
    a.GetOr("")
  }

  predicate IsDigit(c: char)
  {
    '0' <= c <= '9'
  }

  /** The number of decimal digits `s` starts with. */
  function DigitRun(s: string): (n: nat)
    ensures n <= |s|
    ensures forall i :: 0 <= i < n ==> IsDigit(s[i])
    ensures n < |s| ==> !IsDigit(s[n])
    decreases |s|
  {
    if |s| > 0 && IsDigit(s[0]) then 1 + DigitRun(s[1..]) else 0
  }

  function DecimalValue(s: string): nat
    requires forall i :: 0 <= i < |s| ==> IsDigit(s[i])
    decreases |s|
  {
    if |s| == 0 then 0
    else
      assert IsDigit(s[|s| - 1]);
      DecimalValue(s[..|s| - 1]) * 10 + (s[|s| - 1] as int - '0' as int)
  }

  function Prepend(prefix: string, r: Result<string, FormatError>): Result<string, FormatError>
  {
    match r
    case Success(s) => Success(prefix + s)
    case Failure(e) => Failure(e)
  }

  /** Formats `t`; `next` is the index of the argument the next `%s` takes. */
  function Format(t: string, args: seq<Option<string>>, next: nat): Result<string, FormatError>
    decreases |t|
  {
    if |t| == 0 then Success("")
    else if t[0] != '%' then Prepend([t[0]], Format(t[1..], args, next))
    else if |t| == 1 then Failure(MissingSpecifier)
    else if t[1] == '%' then Prepend("%", Format(t[2..], args, next))
    else if t[1] == 's' then
      if next < |args| then Prepend(ArgumentText(args[next]), Format(t[2..], args, next + 1))
      else Failure(TooFewArguments)
    else
      var n := DigitRun(t[1..]);
      if n > 0 && 3 + n <= |t| && t[1 + n] == '$' && t[2 + n] == 's' then
        var position := DecimalValue(t[1..1 + n]);
        if position == 0 then Failure(ArgumentNumberZero)
        else if position - 1 < |args| then Prepend(ArgumentText(args[position - 1]), Format(t[3 + n..], args, next))
        else Failure(TooFewArguments)
      else Failure(UnsupportedSpecifier)
  }

  /** vsprintf: the template formatted with the arguments taken from the first. */
  function VSprintf(template: string, args: seq<Option<string>>): (r: Result<string, FormatError>)
    ensures '%' !in template ==> r == Success(template)
  {
    if '%' !in template then FormatLiteral(template, args, 0); Format(template, args, 0)
    else Format(template, args, 0)
  }

  /** A template without `%` is printed as it stands, whatever the arguments. */
  lemma {:induction false} FormatLiteral(t: string, args: seq<Option<string>>, next: nat)
    requires '%' !in t
    ensures Format(t, args, next) == Success(t)
    decreases |t|
  {
    if |t| > 0 {
      assert '%' !in t[1..];
      FormatLiteral(t[1..], args, next);
      assert t == [t[0]] + t[1..];
    }
  }

  /** `%1$s` prints the first argument, with a null argument printed as nothing. */
  lemma FirstPositionalArgument(before: string, after: string, arg: Option<string>, more: seq<Option<string>>)
    requires '%' !in before && '%' !in after
    ensures VSprintf(before + "%1$s" + after, [arg] + more) == Success(before + ArgumentText(arg) + after)
  {
    var args := [arg] + more;
    FormatPrefix(before, "%1$s" + after, args, 0);
    FirstPlaceholder(after, args);
    assert before + "%1$s" + after == before + ("%1$s" + after);
    assert before + (ArgumentText(arg) + after) == before + ArgumentText(arg) + after;
  }

  lemma FirstPlaceholder(after: string, args: seq<Option<string>>)
    requires |args| > 0 && '%' !in after
    ensures Format("%1$s" + after, args, 0) == Success(ArgumentText(args[0]) + after)
  {
    var t := "%1$s" + after;
    assert t[0] == '%' && t[1] == '1' && t[2] == '$' && t[3] == 's';
    assert t[2..][0] == '$';
    assert DigitRun(t[2..]) == 0;
    assert DigitRun(t[1..]) == 1 by {
      assert t[1..][1..] == t[2..];
    }
    assert DecimalValue(t[1..2]) == 1 by {
      assert t[1..2] == "1";
      assert "1"[..0] == "";
    }
    assert t[4..] == after;
    FormatLiteral(after, args, 0);
  }

  /** A literal prefix is copied ahead of the rest of the output. */
  lemma {:induction false} FormatPrefix(before: string, rest: string, args: seq<Option<string>>, next: nat)
    requires '%' !in before
    ensures Format(before + rest, args, next) == Prepend(before, Format(rest, args, next))
    decreases |before|
  {
    if |before| > 0 {
      var whole := before + rest;
      assert whole[0] == before[0] && whole[0] != '%';
      assert whole[1..] == before[1..] + rest;
      assert Format(whole, args, next) == Prepend([before[0]], Format(before[1..] + rest, args, next));
      assert '%' !in before[1..];
      FormatPrefix(before[1..], rest, args, next);
      assert before == [before[0]] + before[1..];
      match Format(rest, args, next)
      case Success(s) =>
        assert [before[0]] + (before[1..] + s) == before + s;
      case Failure(_) =>
    } else {
      assert before + rest == rest;
      match Format(rest, args, next)
      case Success(s) =>
        assert before + s == s;
      case Failure(_) =>
    }
  }
}
