/**
 * The error kinds raised by the MAIC engine (indcomp/exceptions.py), as one
 * tagged datatype whose payloads are the fields each exception records, and
 * the text each exception's `__str__` renders.
 */
module Exceptions {

  /** Which data frame a missing column was expected in. */
  datatype Side = Target | Index

  /** The word the engine passes as the second argument of ColumnNotFoundException. */
  function SideName(side: Side): (r: string)
    ensures r == "target" <==> side == Target
    ensures r == "index" <==> side == Index
  {
    match side
    case Target => "target"
    case Index => "index"
  }

  datatype MaicError =
    | NoWeights                                  // weight-dependent call before calc_weights
    | ColumnNotFound(col: string, source: Side)  // a referenced column is not in a frame
    | Statistic(statistic: string)               // first tuple item is not 'mean' or 'std'
    | MeanConfig(vals: seq<string>)              // 'mean' tuple whose length is not 2
    | StdConfig(vals: seq<string>)               // 'std' tuple whose length is not 3
    | Config(supplied: string)                   // a bare string instead of a tuple

  /**
   * A value, or the error raised while producing it; `Result<()>` is a call
   * that either returns normally or raises.
   */
  datatype Result<T> = Success(value: T) | Failure(error: MaicError)

  datatype Option<T> = None | Some(value: T)

  // ---------------------------------------------------------------------------
  // Decimal rendering of lengths (Python's str(int) for non-negative ints)
  // ---------------------------------------------------------------------------

  predicate IsDigit(c: char) { '0' <= c <= '9' }

  function DigitChar(d: nat): (c: char)
    requires d < 10
    ensures IsDigit(c) && (c as int) - ('0' as int) == d
  {
    ('0' as int + d) as char
  }

  function DigitValue(c: char): (d: nat)
    requires IsDigit(c)
    ensures d < 10 && DigitChar(d) == c
  {
    (c as int) - ('0' as int)
  }

  function NatToString(n: nat): (s: string)
    ensures |s| > 0
    ensures forall i :: 0 <= i < |s| ==> IsDigit(s[i])
  {
    if n < 10 then [DigitChar(n)] else NatToString(n / 10) + [DigitChar(n % 10)]
  }

  function ParseNat(s: string): (r: nat)
    requires forall i :: 0 <= i < |s| ==> IsDigit(s[i])
  {
    if |s| == 0 then 0 else 10 * ParseNat(s[..|s| - 1]) + DigitValue(s[|s| - 1])
  }

  /** The longest prefix of `s` made of decimal digits. */
  function DigitPrefix(s: string): (r: string)
    ensures |r| <= |s| && r == s[..|r|]
    ensures forall i :: 0 <= i < |r| ==> IsDigit(r[i])
    ensures |r| < |s| ==> !IsDigit(s[|r|])
  {
    if |s| == 0 || !IsDigit(s[0]) then [] else [s[0]] + DigitPrefix(s[1..])
  }

  lemma {:induction false} ParseNatToString(n: nat)
    ensures ParseNat(NatToString(n)) == n
  {
    if n >= 10 {
      var s := NatToString(n);
      assert s[..|s| - 1] == NatToString(n / 10);
      ParseNatToString(n / 10);
    }
  }

  lemma {:induction false} DigitPrefixOfNumber(n: nat, rest: string)
    requires rest == [] || !IsDigit(rest[0])
    ensures DigitPrefix(NatToString(n) + rest) == NatToString(n)
  {
    DigitPrefixStops(NatToString(n), rest);
  }

  lemma {:induction false} DigitPrefixStops(digits: string, rest: string)
    requires forall i :: 0 <= i < |digits| ==> IsDigit(digits[i])
    requires rest == [] || !IsDigit(rest[0])
    ensures DigitPrefix(digits + rest) == digits
  {
    if |digits| > 0 {
      assert (digits + rest)[1..] == digits[1..] + rest;
      DigitPrefixStops(digits[1..], rest);
    } else {
      assert digits + rest == rest;
    }
  }

  // ---------------------------------------------------------------------------
  // Python's repr of strings and tuples of strings (ASCII part)
  // ---------------------------------------------------------------------------

  function HexDigit(d: nat): (r: char)
    requires d < 16
  {
    "0123456789abcdef"[d]
  }

  /** The quote character repr chooses: `"` only when `s` holds `'` and no `"`. */
  function QuoteFor(s: string): (q: char)
    ensures q == '\'' || q == '"'
  {
    if '\'' in s && '"' !in s then '"' else '\''
  }

  /** How one character is written inside a repr quoted with `q`. */
  function EscapeChar(c: char, q: char): (r: string)
    ensures |r| > 0
  {
    if c == q || c == '\\' then ['\\', c]
    else if c == '\t' then "\\t"
    else if c == '\n' then "\\n"
    else if c == '\r' then "\\r"
    else if c < ' ' || c == '\U{7f}' then
      ['\\', 'x', HexDigit((c as int) / 16), HexDigit((c as int) % 16)]
    else [c]
  }

  function EscapeAll(s: string, q: char): (r: string)
  {
    if |s| == 0 then [] else EscapeChar(s[0], q) + EscapeAll(s[1..], q)
  }

  function StrRepr(s: string): (r: string)
    ensures |r| >= 2 && r[0] == r[|r| - 1] == QuoteFor(s)
  {
    var q := QuoteFor(s);
    [q] + EscapeAll(s, q) + [q]
  }

  function JoinReprs(items: seq<string>): (r: string)
  {
    if |items| == 0 then []
    else if |items| == 1 then StrRepr(items[0])
    else StrRepr(items[0]) + ", " + JoinReprs(items[1..])
  }

  /** str() of a tuple of strings: a one-element tuple keeps its trailing comma. */
  function TupleRepr(items: seq<string>): (r: string)
    ensures |r| >= 2 && r[0] == '(' && r[|r| - 1] == ')'
  {
    if |items| == 1 then "(" + StrRepr(items[0]) + ",)"
    else "(" + JoinReprs(items) + ")"
  }

  /** A printable ASCII character that repr writes as itself between single quotes. */
  predicate PlainChar(c: char)
  {
    ' ' <= c < '\U{7f}' && c != '\'' && c != '\\'
  }

  predicate Plain(s: string)
  {
    forall i :: 0 <= i < |s| ==> PlainChar(s[i])
  }

  lemma {:induction false} EscapeAllPlain(s: string)
    requires Plain(s)
    ensures EscapeAll(s, '\'') == s
  {
    if |s| > 0 {
      assert PlainChar(s[0]);
      assert Plain(s[1..]) by {
        forall i | 0 <= i < |s[1..]| ensures PlainChar(s[1..][i]) {
          assert s[1..][i] == s[i + 1];
        }
      }
      EscapeAllPlain(s[1..]);
      assert s == [s[0]] + s[1..];
    }
  }

  /** repr of a plain string is the string itself between single quotes. */
  lemma {:induction false} StrReprOfPlain(s: string)
    requires Plain(s)
    ensures StrRepr(s) == "'" + s + "'"
  {
    assert '\'' !in s by {
      forall i | 0 <= i < |s| ensures s[i] != '\'' {
        assert PlainChar(s[i]);
      }
    }
    EscapeAllPlain(s);
  }

  /**
   * The tuples the arity errors print, for plain items: a one-item tuple
   * keeps its trailing comma, and items are separated by ", ".
   */
  lemma {:induction false} TupleReprOfOne(a: string)
    requires Plain(a)
    ensures TupleRepr([a]) == "('" + a + "',)"
  {
    StrReprOfPlain(a);
  }

  lemma {:induction false} TupleReprOfTwo(a: string, b: string)
    requires Plain(a) && Plain(b)
    ensures TupleRepr([a, b]) == "('" + a + "', '" + b + "')"
  {
    StrReprOfPlain(a);
    StrReprOfPlain(b);
    assert [a, b][1..] == [b];
    calc {
      TupleRepr([a, b]);
      == "(" + JoinReprs([a, b]) + ")";
      == "(" + (StrRepr(a) + ", " + JoinReprs([b])) + ")";
      == "(" + ("'" + a + "'" + ", " + ("'" + b + "'")) + ")";
      == "('" + a + "', '" + b + "')";
    }
  }

  lemma {:induction false} TupleReprOfThree(a: string, b: string, c: string)
    requires Plain(a) && Plain(b) && Plain(c)
    ensures TupleRepr([a, b, c]) == "('" + a + "', '" + b + "', '" + c + "')"
  {
    StrReprOfPlain(a);
    StrReprOfPlain(b);
    StrReprOfPlain(c);
    assert [a, b, c][1..] == [b, c] && [b, c][1..] == [c];
    calc {
      TupleRepr([a, b, c]);
      == "(" + JoinReprs([a, b, c]) + ")";
      == "(" + (StrRepr(a) + ", " + (StrRepr(b) + ", " + JoinReprs([c]))) + ")";
      == "(" + ("'" + a + "'" + ", " + ("'" + b + "'" + ", " + ("'" + c + "'"))) + ")";
      == "('" + a + "', '" + b + "', '" + c + "')";
    }
  }

  // ---------------------------------------------------------------------------
  // Messages
  // ---------------------------------------------------------------------------

  const NoWeightsText: string :=
    "This instance has not had weights calculated yet. Call `calc_weights` before using this method."
  const ColumnPrefix: string := "Column name '"
  const StatisticPrefix: string :=
    "Supported statistics are ('mean', 'std'), provided as the first item in the match dictionary values. '"
  const StatisticSuffix: string := "' provided."
  const MeanPrefix: string :=
    "Configuring for 'mean' requires two items in the match dictionary values. "
  const StdPrefix: string :=
    "Configuring for 'std' requires three items in the match dictionary values. "
  const CountSeparator: string := " provided: "
  const ConfigPrefix: string :=
    "Match dictionary values require two items for 'mean', or three items for 'std'. Provided: '"
  const ConfigSuffix: string := "'"

  function ColumnSuffix(side: Side): (r: string)
  {
    "' not found in " + SideName(side) + " dataframe"
  }

  /** The text of `str(exception)` for each error kind. */
  function Message(e: MaicError): (m: string)
    ensures e.NoWeights? ==> m == NoWeightsText
  {
    match e
    case NoWeights => NoWeightsText
    case ColumnNotFound(col, source) => ColumnPrefix + col + ColumnSuffix(source)
    case Statistic(stat) => StatisticPrefix + stat + StatisticSuffix
    case MeanConfig(vals) => MeanPrefix + NatToString(|vals|) + CountSeparator + TupleRepr(vals)
    case StdConfig(vals) => StdPrefix + NatToString(|vals|) + CountSeparator + TupleRepr(vals)
    case Config(vals) => ConfigPrefix + vals + ConfigSuffix
  }

  // ---------------------------------------------------------------------------
  // Reading the payload back out of a message
  // ---------------------------------------------------------------------------

  /** The middle of `m` when `m` starts with `prefix` and ends with `suffix`. */
  function Between(m: string, prefix: string, suffix: string): (r: Option<string>)
    ensures r.Some? ==> m == prefix + r.value + suffix
  {
    if |prefix| + |suffix| <= |m| && m[..|prefix|] == prefix && m[|m| - |suffix|..] == suffix
    then
      var mid := m[|prefix|..|m| - |suffix|];
      assert m == m[..|prefix|] + mid + m[|m| - |suffix|..];
      Some(mid)
    else None
  }

  lemma BetweenOfConcat(prefix: string, x: string, suffix: string)
    ensures Between(prefix + x + suffix, prefix, suffix) == Some(x)
  {
    var m := prefix + x + suffix;
    assert m[..|prefix|] == prefix;
    assert m[|m| - |suffix|..] == suffix;
    assert m[|prefix|..|m| - |suffix|] == x;
  }

  /** The column and frame a ColumnNotFound message names. */
  function ParseColumnNotFound(m: string): (r: Option<(string, Side)>)
  {
    match Between(m, ColumnPrefix, ColumnSuffix(Target))
    case Some(col) => Some((col, Target))
    case None =>
      match Between(m, ColumnPrefix, ColumnSuffix(Index))
      case Some(col) => Some((col, Index))
      case None => None
  }

  /** The message names both the missing column and the frame it was looked up in. */
  lemma ColumnNotFoundMessageNamesBoth(col: string, side: Side)
    ensures ParseColumnNotFound(Message(ColumnNotFound(col, side))) == Some((col, side))
  {
    var m := Message(ColumnNotFound(col, side));
    BetweenOfConcat(ColumnPrefix, col, ColumnSuffix(side));
    if side == Index {
      // a message ending in "index dataframe" does not end in "target dataframe"
      var t, i := ColumnSuffix(Target), ColumnSuffix(Index);
      if |ColumnPrefix| + |t| <= |m| {
        assert m[|m| - 11] == i[|i| - 11] == 'x';
        assert m[|m| - |t|..][|t| - 11] == 'x' != t[|t| - 11];
      }
    }
  }

  /** The message quotes the offending statistic, which can be read back from it. */
  lemma StatisticMessageQuotesIt(stat: string)
    ensures Between(Message(Statistic(stat)), StatisticPrefix, StatisticSuffix) == Some(stat)
  {
    BetweenOfConcat(StatisticPrefix, stat, StatisticSuffix);
  }

  /** The message quotes the bare string that was supplied. */
  lemma ConfigMessageQuotesIt(vals: string)
    ensures Between(Message(Config(vals)), ConfigPrefix, ConfigSuffix) == Some(vals)
  {
    BetweenOfConcat(ConfigPrefix, vals, ConfigSuffix);
  }

  /** The number written right after `prefix` in `m`, if `m` starts with `prefix`. */
  function ReportedCount(m: string, prefix: string): (r: Option<nat>)
  {
    if |prefix| <= |m| && m[..|prefix|] == prefix then Some(ParseNat(DigitPrefix(m[|prefix|..])))
    else None
  }

  /** A 'mean' arity message states the required two items and reports the tuple's length. */
  lemma MeanConfigMessageReportsLength(vals: seq<string>)
    ensures ReportedCount(Message(MeanConfig(vals)), MeanPrefix) == Some(|vals|)
  {
    ArityMessageReportsLength(MeanPrefix, vals);
  }

  /** A 'std' arity message states the required three items and reports the tuple's length. */
  lemma StdConfigMessageReportsLength(vals: seq<string>)
    ensures ReportedCount(Message(StdConfig(vals)), StdPrefix) == Some(|vals|)
  {
    ArityMessageReportsLength(StdPrefix, vals);
  }

  lemma ArityMessageReportsLength(prefix: string, vals: seq<string>)
    ensures ReportedCount(prefix + NatToString(|vals|) + CountSeparator + TupleRepr(vals), prefix)
            == Some(|vals|)
  {
    var rest := CountSeparator + TupleRepr(vals);
    assert rest[0] == ' ';
    assert prefix + NatToString(|vals|) + CountSeparator + TupleRepr(vals)
        == prefix + NatToString(|vals|) + rest;
    CountAfterPrefix(prefix, |vals|, rest);
  }

  lemma CountAfterPrefix(prefix: string, n: nat, rest: string)
    requires rest == [] || !IsDigit(rest[0])
    ensures ReportedCount(prefix + NatToString(n) + rest, prefix) == Some(n)
  {
    var m := prefix + NatToString(n) + rest;
    assert m[..|prefix|] == prefix;
    assert m[|prefix|..] == NatToString(n) + rest;
    DigitPrefixOfNumber(n, rest);
    ParseNatToString(n);
  }
}
