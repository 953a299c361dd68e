/** utils.py: the ISSN filter applied to the command-line arguments, and the
    host:port settings of the two remote services with their fallbacks. */
module Utils {
  import opened Common

  // ---------------------------------------------------------------------------
  // REGEX_ISSN and ckeck_given_issns

  /** One position of a regular expression without repetition or alternation. */
  datatype CharClass = Digit | Literal(c: char) | DigitOrX

  predicate IsDigit(c: char) {
    '0' <= c <= '9'
  }

  predicate InClass(cc: CharClass, c: char) {
    match cc
    case Digit => IsDigit(c)
    case Literal(l) => c == l
    case DigitOrX => IsDigit(c) || c == 'x' || c == 'X'
  }

  /** REGEX_ISSN, ^[0-9]{4}-[0-9]{3}[0-9xX]$, with its counted repetitions written out. */
  const IssnPattern: seq<CharClass> :=
    [Digit, Digit, Digit, Digit, Literal('-'), Digit, Digit, Digit, DigitOrX]

  /** Python's re.match of ^p$ on s: p matches from the first character, and $
      matches at the end of s or just before a newline that ends s. */
  predicate FullMatch(p: seq<CharClass>, s: string) {
    && |p| <= |s|
    && (forall i :: 0 <= i < |p| ==> InClass(p[i], s[i]))
    && (|s| == |p| || (|s| == |p| + 1 && s[|p|] == '\n'))
  }

  predicate IsIssn(s: string) {
    FullMatch(IssnPattern, s)
  }

  /** The regular expression, position by position: four digits, a dash, three
      digits, then a digit or x or X, and nothing after but one optional newline. */
  lemma IsIssnMeaning(s: string)
    ensures IsIssn(s) <==>
      && (|s| == 9 || (|s| == 10 && s[9] == '\n'))
      && IsDigit(s[0]) && IsDigit(s[1]) && IsDigit(s[2]) && IsDigit(s[3])
      && s[4] == '-'
      && IsDigit(s[5]) && IsDigit(s[6]) && IsDigit(s[7])
      && (IsDigit(s[8]) || s[8] == 'x' || s[8] == 'X')
  {
    if |s| >= 9 {
      var p := IssnPattern;
      assert p[0] == Digit && p[1] == Digit && p[2] == Digit && p[3] == Digit;
      assert p[4] == Literal('-') && p[5] == Digit && p[6] == Digit && p[7] == Digit;
      assert p[8] == DigitOrX;
      if IsDigit(s[0]) && IsDigit(s[1]) && IsDigit(s[2]) && IsDigit(s[3]) && s[4] == '-'
         && IsDigit(s[5]) && IsDigit(s[6]) && IsDigit(s[7])
         && (IsDigit(s[8]) || s[8] == 'x' || s[8] == 'X') {
        forall i | 0 <= i < |p| ensures InClass(p[i], s[i]) {
          if i < 4 {
          } else if i == 4 {
          } else if i < 8 {
          } else {
          }
        }
      }
    }
  }

  /** The ISSNs kept by ckeck_given_issns: the arguments that match the
      pattern, in their order, duplicates included and unchanged. */
  function FilterIssns(issns: seq<string>): (valid: seq<string>)
    ensures |valid| <= |issns|
    ensures forall i :: 0 <= i < |valid| ==> IsIssn(valid[i])
  {
    if issns == [] then []
    else
      var last := issns[|issns| - 1];
      FilterIssns(issns[..|issns| - 1]) + (if IsIssn(last) then [last] else [])
  }

  method CheckGivenIssns(issns: seq<string>) returns (valid: seq<string>)
    ensures valid == FilterIssns(issns)
  {
    valid := [];
    for i := 0 to |issns|
      invariant valid == FilterIssns(issns[..i])
    {
      assert issns[..i + 1][..i] == issns[..i];
      var issn := issns[i];
      if !IsIssn(issn) {
        continue;
      }
      valid := valid + [issn];
    }
    assert issns[..|issns|] == issns;
  }

  /** An argument is kept if and only if it matches the pattern. */
  lemma {:induction false} FilterMembers(issns: seq<string>, x: string)
    ensures x in FilterIssns(issns) <==> x in issns && IsIssn(x)
  {
    if issns != [] {
      var init, last := issns[..|issns| - 1], issns[|issns| - 1];
      assert issns == init + [last];
      FilterMembers(init, x);
    }
  }

  /** Filtering keeps the order of the arguments: it distributes over concatenation. */
  lemma {:induction false} FilterAppend(a: seq<string>, b: seq<string>)
    ensures FilterIssns(a + b) == FilterIssns(a) + FilterIssns(b)
  {
    if b == [] {
      assert a + b == a;
    } else {
      var init, last := b[..|b| - 1], b[|b| - 1];
      assert (a + b)[..|a + b| - 1] == a + init;
      assert (a + b)[|a + b| - 1] == last;
      FilterAppend(a, init);
    }
  }

  /** Each kept ISSN appears as often as it was given: duplicates are not removed. */
  lemma {:induction false} FilterKeepsDuplicates(issns: seq<string>, x: string)
    ensures multiset(FilterIssns(issns))[x] == if IsIssn(x) then multiset(issns)[x] else 0
  {
    if issns != [] {
      var init, last := issns[..|issns| - 1], issns[|issns| - 1];
      assert issns == init + [last];
      FilterKeepsDuplicates(init, x);
    }
  }

  /** Filtering twice is filtering once. */
  lemma {:induction false} FilterIdempotent(issns: seq<string>)
    ensures FilterIssns(FilterIssns(issns)) == FilterIssns(issns)
  {
    if issns != [] {
      var init, last := issns[..|issns| - 1], issns[|issns| - 1];
      FilterIdempotent(init);
      var tail := if IsIssn(last) then [last] else [];
      FilterAppend(FilterIssns(init), tail);
      if IsIssn(last) {
        assert [last][..0] == [];
      }
    }
  }

  /** The check character of an ISSN, as the ISSN standard (ISO 3297) computes it
      from the first seven digits with weights 8 down to 2, modulo 11. */
  function CheckCharacter(s: string): char
    requires IsIssn(s)
  {
    IsIssnMeaning(s);
    var v := (i: int) requires 0 <= i < |s| && IsDigit(s[i]) => s[i] as int - '0' as int;
    var sum := 8 * v(0) + 7 * v(1) + 6 * v(2) + 5 * v(3) + 4 * v(5) + 3 * v(6) + 2 * v(7);
    var c := (11 - sum % 11) % 11;
    if c == 10 then 'X' else ('0' as int + c) as char
  }

  /** The pattern's verdict on each argument of FilterExamples. */
  lemma ExampleVerdicts()
    ensures IsIssn("0001-3765\n") && IsIssn("0001-376x") && IsIssn("1234-5678")
    ensures !IsIssn("0001-3765 ") && !IsIssn("00013765") && !IsIssn("0001-3765\n\n")
  {
    IsIssnMeaning("0001-3765\n");
    IsIssnMeaning("0001-376x");
    IsIssnMeaning("1234-5678");
    IsIssnMeaning("0001-3765 ");
    IsIssnMeaning("00013765");
    IsIssnMeaning("0001-3765\n\n");
  }

  /** What the filter does on a handful of arguments: a final newline, a lower-case
      check character and a wrong check digit are all kept as given; a trailing
      space, a missing dash and a second newline are not. */
  lemma FilterExamples()
    ensures IsIssn("1234-5678") && CheckCharacter("1234-5678") != '8'
    ensures FilterIssns(["0001-3765\n", "0001-376x", "1234-5678", "0001-3765 ", "00013765", "0001-3765\n\n", "0001-376x"])
         == ["0001-3765\n", "0001-376x", "1234-5678", "0001-376x"]
  {
    ExampleVerdicts();
    var args := ["0001-3765\n", "0001-376x", "1234-5678", "0001-3765 ", "00013765", "0001-3765\n\n", "0001-376x"];
    assert args[..1] == ["0001-3765\n"] && args[..1][..0] == [];
    assert args[..2][..1] == args[..1] && args[..3][..2] == args[..2] && args[..4][..3] == args[..3];
    assert args[..5][..4] == args[..4] && args[..6][..5] == args[..5] && args[..7][..6] == args[..6];
    assert FilterIssns(args[..1]) == ["0001-3765\n"];
    assert FilterIssns(args[..2]) == ["0001-3765\n", "0001-376x"];
    assert FilterIssns(args[..3]) == ["0001-3765\n", "0001-376x", "1234-5678"];
    assert FilterIssns(args[..4]) == FilterIssns(args[..3]);
    assert FilterIssns(args[..5]) == FilterIssns(args[..3]);
    assert FilterIssns(args[..6]) == FilterIssns(args[..3]);
    assert args[..7] == args;
  }

  // ---------------------------------------------------------------------------
  // str.split and int() on the setting values

  /** Python's str.split(sep) with a one-character separator. */
  function Split(s: string, sep: char): (parts: seq<string>)
    ensures |parts| >= 1
    ensures forall i :: 0 <= i < |parts| ==> sep !in parts[i]
  {
    if s == [] then [""]
    else
      var rest := Split(s[1..], sep);
      if s[0] == sep then [""] + rest else [[s[0]] + rest[0]] + rest[1..]
  }

  /** Python's sep.join(parts). */
  function Join(parts: seq<string>, sep: char): string {
    if parts == [] then ""
    else if |parts| == 1 then parts[0]
    else parts[0] + [sep] + Join(parts[1..], sep)
  }

  /** Joining the pieces of a split with the same separator gives back the string. */
  lemma {:induction false} SplitJoin(s: string, sep: char)
    ensures Join(Split(s, sep), sep) == s
  {
    if s != [] {
      var rest := Split(s[1..], sep);
      SplitJoin(s[1..], sep);
      if s[0] == sep {
        assert Split(s, sep) == [""] + rest;
      } else if |rest| == 1 {
        assert Split(s, sep) == [[s[0]] + rest[0]];
      } else {
        var parts := Split(s, sep);
        assert parts == [[s[0]] + rest[0]] + rest[1..];
        assert parts[1..] == rest[1..];
      }
    }
  }

  lemma {:induction false} SplitNoSeparator(h: string, sep: char)
    requires sep !in h
    ensures Split(h, sep) == [h]
  {
    if h != [] {
      SplitNoSeparator(h[1..], sep);
      assert [h[0]] + h[1..] == h;
    }
  }

  lemma {:induction false} SplitAfterPrefix(h: string, t: string, sep: char)
    requires sep !in h
    ensures Split(h + [sep] + t, sep) == [h] + Split(t, sep)
  {
    if h == [] {
      assert (h + [sep] + t)[1..] == t;
    } else {
      assert (h + [sep] + t)[1..] == h[1..] + [sep] + t;
      SplitAfterPrefix(h[1..], t, sep);
      assert [h[0]] + h[1..] == h;
    }
  }

  predicate IsSpace(c: char) {
    c == ' ' || c == '\t' || c == '\n' || c == '\r' || c == '\U{0B}' || c == '\U{0C}'
  }

  predicate AllDigits(s: string) {
    forall i :: 0 <= i < |s| ==> IsDigit(s[i])
  }

  function TrimLeft(s: string): string {
    if s != [] && IsSpace(s[0]) then TrimLeft(s[1..]) else s
  }

  function TrimRight(s: string): string {
    if s != [] && IsSpace(s[|s| - 1]) then TrimRight(s[..|s| - 1]) else s
  }

  /** The value of a string of decimal digits. */
  function DigitsValue(s: string): nat
    requires AllDigits(s)
  {
    if s == [] then 0 else 10 * DigitsValue(s[..|s| - 1]) + (s[|s| - 1] as int - '0' as int)
  }

  /** Python 2's int(s) on a string: surrounding whitespace, an optional sign,
      more whitespace after the sign (PyOS_strtol hands the rest to
      PyOS_strtoul, which skips it again) and at least one decimal digit;
      anything else raises ValueError (None here). */
  function ParseInt(s: string): Option<int> {
    var t := TrimRight(TrimLeft(s));
    if t != [] && (t[0] == '-' || t[0] == '+') then
      var d := TrimLeft(t[1..]);
      if d != [] && AllDigits(d) then
        Some(if t[0] == '-' then -(DigitsValue(d) as int) else DigitsValue(d))
      else None
    else if t != [] && AllDigits(t) then Some(DigitsValue(t))
    else None
  }

  /** Whitespace is skipped around the number and between its sign and its
      digits, but not inside the digits. */
  lemma ParseIntExamples()
    ensures ParseInt(" 80\n") == Some(80)
    ensures ParseInt("+ 80") == Some(80) && ParseInt("-\t80") == Some(-80)
    ensures ParseInt("8 0") == None && ParseInt("+") == None && ParseInt("") == None
  {
    assert TrimLeft(" 80\n") == TrimLeft("80\n") == "80\n";
    assert TrimRight("80\n") == TrimRight("80") == "80";
    assert "80"[..1] == "8";
    assert DigitsValue("80") == 10 * DigitsValue("8") + 0;
    assert TrimLeft("+ 80") == "+ 80" && TrimRight("+ 80") == "+ 80";
    assert "+ 80"[1..] == " 80" && TrimLeft(" 80") == TrimLeft("80") == "80";
    assert TrimLeft("-\t80") == "-\t80" && TrimRight("-\t80") == "-\t80";
    assert "-\t80"[1..] == "\t80" && TrimLeft("\t80") == TrimLeft("80");
    assert TrimLeft("8 0") == "8 0" && TrimRight("8 0") == "8 0" && !IsDigit("8 0"[1]);
    assert TrimLeft("+") == "+" && TrimRight("+") == "+" && "+"[1..] == [];
  }

  /** A setting whose port has whitespace after its sign still gives that port. */
  lemma SignedPortSetting(settings: Settings, key: string, defaultHost: string)
    requires "app:main" in settings && key in settings["app:main"]
    requires settings["app:main"][key] == "h:+ 80"
    ensures ServerSetting(settings, key, defaultHost) == Endpoint("h", 80)
  {
    assert ParseInt("+ 80") == Some(80) by { ParseIntExamples(); }
    assert "h:+ 80" == "h" + ":" + "+ 80" + "";
    SettingWithPort(settings, key, defaultHost, "h", "+ 80", "");
  }

  /** Python's str(n) for a natural number. */
  function Decimal(n: nat): (s: string)
    ensures s != [] && AllDigits(s)
  {
    if n < 10 then [('0' as int + n) as char]
    else Decimal(n / 10) + [('0' as int + n % 10) as char]
  }

  /** Python's str(n) for an integer. */
  function IntToString(n: int): string {
    if n < 0 then "-" + Decimal(-n) else Decimal(n)
  }

  lemma {:induction false} DecimalValue(n: nat)
    ensures DigitsValue(Decimal(n)) == n
  {
    if n >= 10 {
      DecimalValue(n / 10);
      var s := Decimal(n);
      assert s[..|s| - 1] == Decimal(n / 10);
    }
  }

  /** int(str(n)) == n: every integer written in decimal parses back to itself. */
  lemma ParseIntRoundTrip(n: int)
    ensures ParseInt(IntToString(n)) == Some(n)
  {
    var s := IntToString(n);
    if n < 0 {
      var d := Decimal(-n);
      DecimalValue(-n);
      assert s[1..] == d;
      assert !IsSpace(s[|s| - 1]) by { assert s[|s| - 1] == d[|d| - 1]; }
    } else {
      DecimalValue(n);
      assert !IsSpace(s[0]);
      assert !IsSpace(s[|s| - 1]);
    }
  }

  // ---------------------------------------------------------------------------
  // articlemeta_server and scielomanager_server

  /** The settings file, section by section. */
  type Settings = map<string, map<string, string>>

  /** The address a client is built with. */
  datatype Endpoint = Endpoint(host: string, port: int)

  const DefaultPort: int := 11720

  /** settings['app:main'][key].split(':') gives the host and the port; any
      exception on the way (missing section or key, no second part, a port that
      int() refuses) falls back to the default host on port 11720. */
  function ServerSetting(settings: Settings, key: string, defaultHost: string): Endpoint {
    if "app:main" in settings && key in settings["app:main"] then
      var server := Split(settings["app:main"][key], ':');
      if |server| >= 2 && ParseInt(server[1]).Some? then Endpoint(server[0], ParseInt(server[1]).value)
      else Endpoint(defaultHost, DefaultPort)
    else Endpoint(defaultHost, DefaultPort)
  }

  function ArticleMetaServer(settings: Settings): (e: Endpoint)
    ensures "app:main" !in settings || "articlemeta_thriftserver" !in settings["app:main"] ==>
      e == Endpoint("articlemeta.scielo.org", 11720)
  {
    ServerSetting(settings, "articlemeta_thriftserver", "articlemeta.scielo.org")
  }

  /** The fallback host is scielomanager.scielo.org, although the source's
      warning message names manager.scielo.org. */
  function ScieloManagerServer(settings: Settings): (e: Endpoint)
    ensures "app:main" !in settings || "scielomanager_thriftserver" !in settings["app:main"] ==>
      e == Endpoint("scielomanager.scielo.org", 11720)
  {
    ServerSetting(settings, "scielomanager_thriftserver", "scielomanager.scielo.org")
  }

  /** A setting "h:p", possibly followed by more ":"-separated parts, gives host h
      and port int(p) when p parses, and the defaults when it does not. */
  lemma SettingWithPort(settings: Settings, key: string, defaultHost: string, h: string, p: string, rest: string)
    requires "app:main" in settings && key in settings["app:main"]
    requires settings["app:main"][key] == h + ":" + p + rest
    requires ':' !in h && ':' !in p
    requires rest == "" || rest[0] == ':'
    ensures ParseInt(p).Some? ==> ServerSetting(settings, key, defaultHost) == Endpoint(h, ParseInt(p).value)
    ensures ParseInt(p).None? ==> ServerSetting(settings, key, defaultHost) == Endpoint(defaultHost, DefaultPort)
  {
    var v := settings["app:main"][key];
    assert v == h + [':'] + (p + rest);
    SplitAfterPrefix(h, p + rest, ':');
    if rest == "" {
      assert p + rest == p;
      SplitNoSeparator(p, ':');
    } else {
      assert p + rest == p + [':'] + rest[1..];
      SplitAfterPrefix(p, rest[1..], ':');
    }
  }

  /** A setting without a colon gives the defaults. */
  lemma SettingWithoutColon(settings: Settings, key: string, defaultHost: string)
    requires "app:main" in settings && key in settings["app:main"]
    requires ':' !in settings["app:main"][key]
    ensures ServerSetting(settings, key, defaultHost) == Endpoint(defaultHost, DefaultPort)
  {
    SplitNoSeparator(settings["app:main"][key], ':');
  }
}
