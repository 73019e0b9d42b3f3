/**
 * The label and sample lines of `formatPrometheus` (src/helpers/metrics.js), in the "Line format" of the
 * Prometheus text exposition format 0.0.4, with a reader that undoes them. Numbers are their decimal text.
 */
module Prometheus {

  datatype Result<+T, +E> = Ok(value: T) | Err(error: E)

  datatype Label = Label(name: string, value: string)

  datatype Error =
    | BadMetricName | BadType | BadHelp
    | BadLabelName(name: string) | NewlineInLabel(name: string)
    | BadScalar | BadHistogram | BadBucket

  // ----- escaping

  /** `s.replaceAll(c, with)` for a single character. */
  function ReplaceAll(s: string, c: char, with: string): string {
    if s == [] then [] else (if s[0] == c then with else [s[0]]) + ReplaceAll(s[1..], c, with)
  }

  /** What the printer does: backslashes first, then quotes. */
  function Escape(s: string): string {
    ReplaceAll(ReplaceAll(s, '\\', "\\\\"), '"', "\\\"")
  }

  /** Every backslash and every quote preceded by a backslash, in one pass. */
  function EscapeOnce(s: string): string {
    if s == [] then []
    else (if s[0] == '\\' || s[0] == '"' then ['\\', s[0]] else [s[0]]) + EscapeOnce(s[1..])
  }

  lemma {:induction false} ReplaceConcat(a: string, b: string, c: char, with: string)
    ensures ReplaceAll(a + b, c, with) == ReplaceAll(a, c, with) + ReplaceAll(b, c, with)
  {
    if a == [] {
      assert a + b == b;
    } else {
      assert (a + b)[1..] == a[1..] + b;
      ReplaceConcat(a[1..], b, c, with);
    }
  }

  /** The two passes are one simultaneous escape: the quotes' backslashes are not escaped again, nor are the first pass's. */
  lemma {:induction false} TwoPassesAreOneEscape(s: string)
    ensures Escape(s) == EscapeOnce(s)
  {
    if s != [] {
      var first := if s[0] == '\\' then "\\\\" else [s[0]];
      ReplaceConcat(first, ReplaceAll(s[1..], '\\', "\\\\"), '"', "\\\"");
      assert ReplaceAll(first, '"', "\\\"") == if s[0] == '\\' || s[0] == '"' then ['\\', s[0]] else [s[0]] by {
        assert first[1..] == if s[0] == '\\' then "\\" else [];
      }
      TwoPassesAreOneEscape(s[1..]);
    }
  }

  // ----- names

  predicate NameStart(c: char) {
    'a' <= c <= 'z' || 'A' <= c <= 'Z' || c == '_'
  }

  predicate NameChar(c: char) {
    NameStart(c) || '0' <= c <= '9'
  }

  predicate LabelName(s: string) {
    |s| > 0 && NameStart(s[0]) && forall i :: 1 <= i < |s| ==> NameChar(s[i])
  }

  predicate MetricName(s: string) {
    && |s| > 0 && (NameStart(s[0]) || s[0] == ':')
    && forall i :: 1 <= i < |s| ==> NameChar(s[i]) || s[i] == ':'
  }

  predicate SingleLine(s: string) {
    '\n' !in s && '\r' !in s
  }

  // ----- printing labels

  function PrintLabel(l: Label): string {
    l.name + "=\"" + Escape(l.value) + "\""
  }

  function JoinLabels(ls: seq<Label>): string {
    if ls == [] then ""
    else if |ls| == 1 then PrintLabel(ls[0])
    else PrintLabel(ls[0]) + "," + JoinLabels(ls[1..])
  }

  predicate ValidLabel(l: Label) {
    LabelName(l.name) && SingleLine(l.value)
  }

  /** The first label that fails decides the error; a bad name is reported before a bad value. */
  function PrintLabels(ls: seq<Label>): Result<string, Error> {
    if ls == [] then Ok("")
    else if !LabelName(ls[0].name) then Err(BadLabelName(ls[0].name))
    else if !SingleLine(ls[0].value) then Err(NewlineInLabel(ls[0].name))
    else
      match PrintLabels(ls[1..])
      case Err(e) => Err(e)
      case Ok(rest) => Ok(if |ls| == 1 then PrintLabel(ls[0]) else PrintLabel(ls[0]) + "," + rest)
  }

  /** Labels print exactly when all are valid, as their joined list. */
  lemma {:induction false} PrintsIffValid(ls: seq<Label>)
    ensures PrintLabels(ls).Ok? <==> forall i :: 0 <= i < |ls| ==> ValidLabel(ls[i])
    ensures PrintLabels(ls).Ok? ==> PrintLabels(ls).value == JoinLabels(ls)
  {
    if ls != [] {
      PrintsIffValid(ls[1..]);
      if PrintLabels(ls).Ok? {
        forall i | 0 <= i < |ls| ensures ValidLabel(ls[i]) {
          assert i > 0 ==> ls[i] == ls[1..][i - 1];
        }
      }
    }
  }

  // ----- reading labels

  /** A label name: as many characters as a name may hold. */
  function SpanName(s: string): (n: nat)
    ensures n <= |s|
  {
    if s != [] && NameChar(s[0]) then 1 + SpanName(s[1..]) else 0
  }

  /** A quoted value up to its closing quote, undoing the format's three escapes, and what follows the quote. */
  function ReadValue(s: string): Result<(string, string), ()> {
    if s == [] then Err(())
    else if s[0] == '"' then Ok(("", s[1..]))
    else if s[0] == '\\' then
      if |s| < 2 then Err(())
      else
        var c := if s[1] == 'n' then '\n' else s[1];
        if s[1] != '\\' && s[1] != '"' && s[1] != 'n' then Err(())
        else
          match ReadValue(s[2..])
          case Err(_) => Err(())
          case Ok((v, rest)) => Ok(([c] + v, rest))
    else
      match ReadValue(s[1..])
      case Err(_) => Err(())
      case Ok((v, rest)) => Ok(([s[0]] + v, rest))
  }

  function ReadLabel(s: string): Result<(Label, string), ()> {
    var n := SpanName(s);
    if n == 0 || |s| < n + 2 || s[n] != '=' || s[n + 1] != '"' then Err(())
    else
      match ReadValue(s[n + 2..])
      case Err(_) => Err(())
      case Ok((v, rest)) => if |rest| <= |s[n + 2..]| then Ok((Label(s[..n], v), rest)) else Err(())
  }

  /** A non-empty comma-separated list that ends where no comma follows. */
  function ReadList(s: string): Result<(seq<Label>, string), ()>
    decreases |s|
  {
    match ReadLabel(s)
    case Err(_) => Err(())
    case Ok((l, rest)) =>
      if rest == [] || rest[0] != ',' then Ok(([l], rest))
      else if |rest| > |s| then Err(())
      else
        match ReadList(rest[1..])
        case Err(_) => Err(())
        case Ok((more, rest')) => Ok(([l] + more, rest'))
  }

  /** The section between the metric name and the value: `{...}`, or nothing at all. */
  function ReadSection(s: string): Result<(seq<Label>, string), ()> {
    if s == [] || s[0] != '{' then Ok(([], s))
    else
      match ReadList(s[1..])
      case Err(_) => Err(())
      case Ok((ls, rest)) => if rest == [] || rest[0] != '}' then Err(()) else Ok((ls, rest[1..]))
  }

  function PrintSection(ls: seq<Label>): string {
    if ls == [] then "" else "{" + JoinLabels(ls) + "}"
  }

  lemma {:induction false} ValueReadsBack(v: string, tail: string)
    ensures ReadValue(EscapeOnce(v) + "\"" + tail) == Ok((v, tail))
  {
    var s := EscapeOnce(v) + "\"" + tail;
    if v == [] {
      assert s == "\"" + tail;
    } else {
      var more := EscapeOnce(v[1..]) + "\"" + tail;
      ValueReadsBack(v[1..], tail);
      if v[0] == '\\' || v[0] == '"' {
        assert s == ['\\', v[0]] + more && s[2..] == more;
      } else {
        assert s == [v[0]] + more && s[1..] == more;
      }
      assert v == [v[0]] + v[1..];
    }
  }

  lemma {:induction false} NameReadsBack(name: string, tail: string)
    requires forall i :: 0 <= i < |name| ==> NameChar(name[i])
    requires tail == [] || !NameChar(tail[0])
    ensures SpanName(name + tail) == |name|
  {
    if name == [] {
      assert name + tail == tail;
    } else {
      assert (name + tail)[1..] == name[1..] + tail;
      NameReadsBack(name[1..], tail);
    }
  }

  lemma LabelReadsBack(l: Label, tail: string)
    requires LabelName(l.name)
    ensures ReadLabel(PrintLabel(l) + tail) == Ok((l, tail))
  {
    TwoPassesAreOneEscape(l.value);
    var quoted := "=\"" + (EscapeOnce(l.value) + "\"" + tail);
    var s := PrintLabel(l) + tail;
    assert s == l.name + quoted;
    NameReadsBack(l.name, quoted);
    ValueReadsBack(l.value, tail);
    assert s[|l.name| + 2..] == EscapeOnce(l.value) + "\"" + tail;
    assert s[..|l.name|] == l.name;
  }

  lemma {:induction false} ListReadsBack(ls: seq<Label>, tail: string)
    requires ls != [] && forall i :: 0 <= i < |ls| ==> LabelName(ls[i].name)
    requires tail == [] || tail[0] != ','
    ensures ReadList(JoinLabels(ls) + tail) == Ok((ls, tail))
  {
    hide ReadLabel, PrintLabel, LabelName;
    var s := JoinLabels(ls) + tail;
    if |ls| == 1 {
      LabelReadsBack(ls[0], tail);
      assert ls == [ls[0]];
    } else {
      var more := JoinLabels(ls[1..]) + tail;
      assert s == PrintLabel(ls[0]) + ("," + more);
      LabelReadsBack(ls[0], "," + more);
      ListReadsBack(ls[1..], tail);
      assert ("," + more)[1..] == more;
      assert ls == [ls[0]] + ls[1..];
    }
  }

  /** Whatever labels the printer accepts, its section reads back as exactly that list, values unescaped. */
  lemma {:induction false} SectionReadsBack(ls: seq<Label>, tail: string)
    requires PrintLabels(ls).Ok? && (tail == [] || tail[0] != '{')
    ensures ReadSection(PrintSection(ls) + tail) == Ok((ls, tail))
  {
    hide ReadList, JoinLabels, PrintLabels, LabelName;
    PrintsIffValid(ls);
    if ls == [] {
      assert PrintSection(ls) + tail == tail;
    } else {
      var s := PrintSection(ls) + tail;
      assert s[1..] == JoinLabels(ls) + ("}" + tail);
      forall i | 0 <= i < |ls| ensures LabelName(ls[i].name) {
        assert ValidLabel(ls[i]);
      }
      ListReadsBack(ls, "}" + tail);
      assert ("}" + tail)[1..] == tail;
    }
  }

  /** So distinct label lists never print the same section. */
  lemma {:induction false} SectionsAreDistinct(a: seq<Label>, b: seq<Label>)
    requires PrintLabels(a).Ok? && PrintLabels(b).Ok? && PrintSection(a) == PrintSection(b)
    ensures a == b
  {
    SectionReadsBack(a, "");
    SectionReadsBack(b, "");
    assert PrintSection(a) + "" == PrintSection(b) + "";
  }
}
