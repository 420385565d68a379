/** The checks `CommandParser` applies to a request once its four arguments
    have been parsed as integers: the digits must lie in 0..9 and there must be
    at least one, the width must not be negative, and the spacing range must
    not be reversed. The command-line parser exits on a failure; the HTTP
    parser returns a flag and a message. */
module CommandParser {
  import opened Common

  /** The parsed arguments, under the names the parsers give them. */
  datatype Args = Args(digits: seq<int>, minSpacingRange: int, maxSpacingRange: int, imageWidth: int)

  /** The argument-level check both parsers declare for `digits`: at least one
      value is required and each must be one of the choices 0..9. */
  predicate DigitsAccepted(digits: seq<int>)
  {
    |digits| >= 1 && forall i :: 0 <= i < |digits| ==> 0 <= digits[i] <= 9
  }

  function WidthMessage(width: int): string
  {
    IntToString(width) + " is an invalid positive int value"
  }

  const SpacingHead := "maxSpacingRange :"
  const SpacingMid := " should be greater than minSpacingRange :"

  function SpacingMessage(maxSpacing: int, minSpacing: int): string
  {
    SpacingHead + IntToString(maxSpacing) + SpacingMid + IntToString(minSpacing)
  }

  /** The post-parse checks shared by both parsers: `None` when the request is
      accepted, otherwise the message of the first check that fails. */
  function Validate(a: Args): Option<string>
  {
    if a.imageWidth < 0 then Some(WidthMessage(a.imageWidth))
    else if a.maxSpacingRange < a.minSpacingRange then Some(SpacingMessage(a.maxSpacingRange, a.minSpacingRange))
    else None
  }

  /** The request is accepted exactly when the width is not negative and the
      range is not reversed; a negative width is reported first, whatever the
      range. Width 0 and an empty range (`min == max`) pass. */
  lemma ValidateSpec(a: Args)
    ensures Validate(a) == None <==> a.imageWidth >= 0 && a.minSpacingRange <= a.maxSpacingRange
    ensures a.imageWidth < 0 ==> Validate(a) == Some(WidthMessage(a.imageWidth))
    ensures a.imageWidth >= 0 && a.maxSpacingRange < a.minSpacingRange ==>
              Validate(a) == Some(SpacingMessage(a.maxSpacingRange, a.minSpacingRange))
  {
  }

  /** A width message and a spacing message are never the same text. */
  lemma MessagesDiffer(w: int, mx: int, mn: int)
    ensures WidthMessage(w) != SpacingMessage(mx, mn)
  {
    var s := IntToString(w);
    IntToStringIsNumeral(w);
    assert WidthMessage(w)[0] == s[0];
    assert s[0] == '-' || '0' <= s[0] <= '9' by {
      if w >= 0 {
        assert IsDigits(NatToString(w));
      }
    }
    assert SpacingMessage(mx, mn)[0] == 'm';
  }

  /** The width message names the width: equal messages, equal widths. */
  lemma WidthMessageInjective(w: int, w': int)
    requires WidthMessage(w) == WidthMessage(w')
    ensures w == w'
  {
    SuffixCancels(IntToString(w), IntToString(w'), " is an invalid positive int value");
    IntToStringInjective(w, w');
  }

  /** The spacing message names both ends of the range. */
  lemma SpacingMessageInjective(mx: int, mn: int, mx': int, mn': int)
    requires SpacingMessage(mx, mn) == SpacingMessage(mx', mn')
    ensures mx == mx' && mn == mn'
  {
    IntToStringIsNumeral(mx);
    IntToStringIsNumeral(mx');
    assert SpacingMid[0] == ' ';
    SplitAtMarker(SpacingHead, IntToString(mx), IntToString(mn), IntToString(mx'), IntToString(mn'), SpacingMid);
    IntToStringInjective(mx, mx');
    IntToStringInjective(mn, mn');
  }

  lemma SuffixCancels(a: string, b: string, suffix: string)
    requires a + suffix == b + suffix
    ensures a == b
  {
    assert |a| == |b|;
    assert a == (a + suffix)[..|a|];
    assert b == (b + suffix)[..|b|];
  }

  /** `head + x + mid + y` splits back into `x` and `y` when `x` and `x'` are
      renderings of integers and `mid` begins with a space. */
  lemma SplitAtMarker(head: string, x: string, y: string, x': string, y': string, mid: string)
    requires IsNumeral(x) && IsNumeral(x') && |mid| >= 1 && mid[0] == ' '
    requires head + x + mid + y == head + x' + mid + y'
    ensures x == x' && y == y'
  {
    var s := head + x + mid + y;
    FirstSpaceAfter(head, x, mid, y);
    FirstSpaceAfter(head, x', mid, y');
    assert |x| == |x'|;
    assert x == s[|head|..|head| + |x|] == x';
    assert y == s[|head| + |x| + |mid|..] == y';
  }

  /** In `head + x + mid + y`, the first space after `head` is where `mid` starts. */
  lemma FirstSpaceAfter(head: string, x: string, mid: string, y: string)
    requires IsNumeral(x) && |mid| >= 1 && mid[0] == ' '
    ensures (head + x + mid + y)[|head| + |x|] == ' '
    ensures forall k :: |head| <= k < |head| + |x| ==> (head + x + mid + y)[k] != ' '
  {
    var s := head + x + mid + y;
    forall k | |head| <= k < |head| + |x|
      ensures s[k] != ' '
    {
      assert s[k] == x[k - |head|];
    }
  }

  /** What `cli_argument_parser` does with a request. */
  datatype CliOutcome =
    | CliArgs(args: Args)                          // the returned argument dictionary
    | CliExit(status: int, message: Option<string>) // the process exits

  /** `cli_argument_parser`: the argument parser itself rejects missing or
      out-of-range digits with status 2 before any of the later checks run;
      a failing later check prints its message and exits with status 1. The
      exits are `SystemExit`, which the method's `except Exception` does not
      catch. */
  function ParseCli(a: Args): (r: CliOutcome)
  {
    if !DigitsAccepted(a.digits) then CliExit(2, None)
    else match Validate(a)
      case Some(msg) => CliExit(1, Some(msg))
      case None => CliArgs(a)
  }

  /** What `api_argument_parser` does with a request. */
  datatype ApiOutcome =
    | ApiAbort(argument: string)   // the request parser answers 400 for this argument
    | ApiResult(ok: bool, message: string, args: Option<Args>)

  /** `api_argument_parser`: `(False, message)` on a failed check, `(True, args)`
      otherwise; a missing or out-of-range digit is answered by the request
      parser before either. */
  function ParseApi(a: Args): (r: ApiOutcome)
  {
    if !DigitsAccepted(a.digits) then ApiAbort("d")
    else match Validate(a)
      case Some(msg) => ApiResult(false, msg, None)
      case None => ApiResult(true, "", Some(a))
  }

  /** The two parsers accept and reject the same requests, for the same
      reason: the CLI's status-1 exits carry exactly the message the API
      returns with `False`, and the argument-level rejections coincide. */
  lemma ParsersAgree(a: Args)
    ensures ParseCli(a).CliArgs? <==> ParseApi(a).ApiResult? && ParseApi(a).ok
    ensures ParseCli(a).CliArgs? ==> ParseCli(a).args == a && ParseApi(a).args == Some(a)
    ensures ParseCli(a) == CliExit(2, None) <==> ParseApi(a).ApiAbort?
    ensures forall m :: ParseCli(a) == CliExit(1, Some(m)) <==> ParseApi(a) == ApiResult(false, m, None)
  {
  }

  /** A request passes the CLI exactly when its digits are acceptable, the
      width is not negative and the range is not reversed. */
  lemma CliAccepts(a: Args)
    ensures ParseCli(a).CliArgs? <==>
              DigitsAccepted(a.digits) && a.imageWidth >= 0 && a.minSpacingRange <= a.maxSpacingRange
    ensures DigitsAccepted(a.digits) && a.imageWidth < 0 ==> ParseCli(a) == CliExit(1, Some(WidthMessage(a.imageWidth)))
  {
    ValidateSpec(a);
  }

  /** With both a negative width and a reversed range, the width is reported. */
  lemma WidthReportedFirst()
    ensures ParseApi(Args([3, 5, 0], 8, 4, -1)) == ApiResult(false, WidthMessage(-1), None)
    ensures WidthMessage(-1)[..2] == "-1"
  {
    var a := Args([3, 5, 0], 8, 4, -1);
    assert DigitsAccepted(a.digits);
    assert NatToString(1) == "1";
  }
}
