/** Node ids as text: what the server prints for a node, and the two parsers of the bridges. */
module NodeIds {
  import opened Wrappers
  import opened ServerConfig

  datatype Id = StringId(ns: nat, name: string) | NumericId(ns: nat, n: nat)

  datatype Error = Empty | Malformed | Range | BadNumber

  datatype Parse = Parsed(id: Id) | Refused(error: Error)

  // ---------- decimal numbers ----------

  predicate IsDigit(c: char) {
    '0' <= c <= '9'
  }

  predicate AllDigits(s: string) {
    forall i :: 0 <= i < |s| ==> IsDigit(s[i])
  }

  function Decimal(n: nat): (s: string)
    ensures s != [] && AllDigits(s)
  {
    if n < 10 then [n as char + '0'] else Decimal(n / 10) + [(n % 10) as char + '0']
  }

  function Number(s: string): nat
    requires AllDigits(s)
  {
    if s == [] then 0 else Number(s[..|s| - 1]) * 10 + (s[|s| - 1] - '0') as nat
  }

  lemma {:induction false} DecimalReads(n: nat)
    ensures Number(Decimal(n)) == n
  {
    if n < 10 {
      assert Number([]) == 0;
      assert Decimal(n)[..0] == [];
    } else {
      DecimalReads(n / 10);
      assert Decimal(n)[..|Decimal(n)| - 1] == Decimal(n / 10);
    }
  }

  lemma {:induction false} DecimalLength(n: nat, k: nat, bound: nat)
    requires k > 0 && n < bound && bound == Power10(k)
    ensures |Decimal(n)| <= k
  {
    if n >= 10 {
      DecimalLength(n / 10, k - 1, Power10(k - 1));
    }
  }

  function Power10(k: nat): nat {
    if k == 0 then 1 else 10 * Power10(k - 1)
  }

  // ---------- printing ----------

  function Text(id: Id): string {
    match id
    case StringId(ns, name) => "ns=" + Decimal(ns) + ";s=" + name
    case NumericId(ns, n) => "ns=" + Decimal(ns) + ";i=" + Decimal(n)
  }

  /** What formatting into a buffer of `size` bytes leaves there before the terminating NUL. */
  function NodeIdString(ns: nat, name: string, size: nat): string
    requires size > 0
  {
    var whole := Text(StringId(ns, name));
    if |whole| < size then whole else whole[..size - 1]
  }

  const NODE_ID_BUFFER := 128

  /** The server's own buffer never truncates the id of an accepted name. */
  lemma NeverTruncated(ns: nat, name: string)
    requires ns < 0x1_0000 && ValidName(name)
    ensures NodeIdString(ns, name, NODE_ID_BUFFER) == Text(StringId(ns, name))
  {
    assert Power10(5) == 100000 by {
      assert Power10(2) == 10 * Power10(1);
      assert Power10(4) == 10 * Power10(3);
    }
    DecimalLength(ns, 5, 100000);
  }

  // ---------- white space ----------

  predicate IsSpace(c: char) {
    '\t' <= c <= '\r' || c == ' ' || c == '\U{85}' || c == '\U{a0}' || c == '\U{1680}' || '\U{2000}' <= c <= '\U{200a}'
    || c == '\U{2028}' || c == '\U{2029}' || c == '\U{202f}' || c == '\U{205f}' || c == '\U{3000}'
  }

  function TrimLeft(s: string): (r: string)
    ensures |r| <= |s| && r == s[|s| - |r|..]
    ensures r != [] ==> !IsSpace(r[0])
  {
    if s != [] && IsSpace(s[0]) then TrimLeft(s[1..]) else s
  }

  function TrimRight(s: string): (r: string)
    ensures r <= s
    ensures r != [] ==> !IsSpace(r[|r| - 1])
  {
    if s != [] && IsSpace(s[|s| - 1]) then TrimRight(s[..|s| - 1]) else s
  }

  function TrimSpace(s: string): (r: string)
    ensures r != [] ==> !IsSpace(r[0]) && !IsSpace(r[|r| - 1])
  {
    TrimRight(TrimLeft(s))
  }

  // ---------- the form ns=<digits>;<kind>=<rest> ----------

  function DigitRun(s: string): (k: nat)
    ensures k <= |s| && AllDigits(s[..k])
    ensures k < |s| ==> !IsDigit(s[k])
  {
    if s == [] || !IsDigit(s[0]) then 0
    else
      assert forall i :: 0 <= i < DigitRun(s[1..]) ==> s[i + 1] == s[1..][..DigitRun(s[1..])][i];
      1 + DigitRun(s[1..])
  }

  datatype Form = Form(digits: string, kind: char, rest: string)

  function Compose(f: Form): string {
    "ns=" + f.digits + ";" + [f.kind] + "=" + f.rest
  }

  /** The parts of a text in the form, with a kind among `kinds` and something after it. */
  function Split(s: string, kinds: set<char>): (r: Option<Form>)
    ensures r.Some? ==>
      s == Compose(r.value) && r.value.digits != [] && AllDigits(r.value.digits)
      && r.value.kind in kinds && r.value.rest != []
  {
    if |s| < 3 || s[..3] != "ns=" then None
    else
      var k := DigitRun(s[3..]);
      if k == 0 || |s| <= 6 + k || s[3 + k] != ';' || s[4 + k] !in kinds || s[5 + k] != '=' then None
      else
        var f := Form(s[3..][..k], s[4 + k], s[6 + k..]);
        assert s == Compose(f);
        Some(f)
  }

  lemma {:induction false} DigitsEnd(digits: string, c: char, more: string)
    requires AllDigits(digits) && !IsDigit(c)
    ensures DigitRun(digits + ([c] + more)) == |digits|
  {
    if digits == [] {
      assert digits + ([c] + more) == [c] + more;
    } else {
      DigitsEnd(digits[1..], c, more);
      assert (digits + ([c] + more))[1..] == digits[1..] + ([c] + more);
    }
  }

  /** A text splits in one way only. */
  lemma SplitsBack(f: Form, kinds: set<char>)
    requires f.digits != [] && AllDigits(f.digits) && f.kind in kinds && f.rest != []
    ensures Split(Compose(f), kinds) == Some(f)
  {
    var s, k := Compose(f), |f.digits|;
    DigitsEnd(f.digits, ';', [f.kind] + "=" + f.rest);
    assert s[3..] == f.digits + ([';'] + ([f.kind] + "=" + f.rest));
    assert s[3..][..k] == f.digits && s[6 + k..] == f.rest;
    assert s[3 + k] == ';' && s[4 + k] == f.kind && s[5 + k] == '=';
  }

  // ---------- the Go parser ----------

  const GO_KINDS: set<char> := {'s', 'i'}

  datatype Unsigned = Fits(n: nat) | Fails(error: Error)

  /** A decimal number below a bound: digits and nothing else. */
  function ParseUint(s: string, bound: nat): Unsigned {
    if s == "" || !AllDigits(s) then Fails(BadNumber)
    else if Number(s) >= bound then Fails(Range)
    else Fits(Number(s))
  }

  /** What the Go service makes of the parts of a text. */
  function FromForm(f: Form): Parse {
    if '\n' in f.rest then Refused(Malformed)
    else
      match ParseUint(f.digits, 0x1_0000)
      case Fails(e) => Refused(e)
      case Fits(ns) =>
        if f.kind == 's' then Parsed(StringId(ns, f.rest))
        else
          match ParseUint(TrimSpace(f.rest), 0x1_0000_0000)
          case Fails(e) => Refused(e)
          case Fits(n) => Parsed(NumericId(ns, n))
  }

  /** The Go service's fallback grammar. */
  function ParseQt(s: string): Parse {
    var t := TrimSpace(s);
    if t == "" then Refused(Empty)
    else
      match Split(t, GO_KINDS)
      case None => Refused(Malformed)
      case Some(f) => FromForm(f)
  }

  lemma Untouched(s: string)
    requires s != [] && !IsSpace(s[0]) && !IsSpace(s[|s| - 1])
    ensures TrimSpace(s) == s
  {
  }

  lemma ParsesForm(f: Form)
    requires f.digits != [] && AllDigits(f.digits) && f.kind in GO_KINDS && f.rest != []
      && !IsSpace(f.rest[|f.rest| - 1])
    ensures ParseQt(Compose(f)) == FromForm(f)
  {
    var s := Compose(f);
    assert s[0] == 'n' && s[|s| - 1] == f.rest[|f.rest| - 1];
    Untouched(s);
    SplitsBack(f, GO_KINDS);
  }

  predicate ProperName(name: string) {
    name != "" && '\n' !in name && !IsSpace(name[|name| - 1])
  }

  lemma StringForm(f: Form)
    requires FromForm(f).Parsed? && FromForm(f).id.StringId?
    ensures FromForm(f).id.name == f.rest && '\n' !in f.rest && FromForm(f).id.ns < 0x1_0000
  {
  }

  lemma LastOfForm(f: Form)
    requires f.rest != []
    ensures Compose(f)[|Compose(f)| - 1] == f.rest[|f.rest| - 1]
  {
  }

  lemma ParsedStringIsProper(s: string)
    requires ParseQt(s).Parsed? && ParseQt(s).id.StringId?
    ensures ProperName(ParseQt(s).id.name) && ParseQt(s).id.ns < 0x1_0000
  {
    var t := TrimSpace(s);
    var f := Split(t, GO_KINDS).value;
    LastOfForm(f);
    StringForm(f);
  }

  lemma DecimalParses(n: nat, bound: nat)
    requires n < bound
    ensures ParseUint(Decimal(n), bound) == Fits(n)
  {
    DecimalReads(n);
  }

  /** Parsing a printed string id gives it back exactly when its name is not empty, holds no line
      break and does not end in white space. */
  lemma StringIdRoundTripIff(ns: nat, name: string)
    requires ns < 0x1_0000
    ensures ParseQt(Text(StringId(ns, name))) == Parsed(StringId(ns, name)) <==> ProperName(name)
  {
    var f := Form(Decimal(ns), 's', name);
    assert Text(StringId(ns, name)) == Compose(f);
    if ProperName(name) {
      DecimalParses(ns, 0x1_0000);
      ParsesForm(f);
    } else if ParseQt(Compose(f)) == Parsed(StringId(ns, name)) {
      ParsedStringIsProper(Compose(f));
    }
  }

  lemma DigitsAreProper(s: string)
    requires s != [] && AllDigits(s)
    ensures ProperName(s) && TrimSpace(s) == s
  {
    assert IsDigit(s[0]) && IsDigit(s[|s| - 1]);
    Untouched(s);
  }

  lemma NumericForm(f: Form, ns: nat, n: nat)
    requires f.kind == 'i' && '\n' !in f.rest && TrimSpace(f.rest) == f.rest
    requires ParseUint(f.digits, 0x1_0000) == Fits(ns) && ParseUint(f.rest, 0x1_0000_0000) == Fits(n)
    ensures FromForm(f) == Parsed(NumericId(ns, n))
  {
  }

  lemma NumericIdRoundTrip(ns: nat, n: nat)
    requires ns < 0x1_0000 && n < 0x1_0000_0000
    ensures ParseQt(Text(NumericId(ns, n))) == Parsed(NumericId(ns, n))
  {
    var f := Form(Decimal(ns), 'i', Decimal(n));
    assert Text(NumericId(ns, n)) == Compose(f);
    DecimalParses(ns, 0x1_0000);
    DecimalParses(n, 0x1_0000_0000);
    DigitsAreProper(f.rest);
    ParsesForm(f);
    NumericForm(f, ns, n);
  }

  lemma ValidNameIsProper(name: string)
    requires ValidName(name)
    ensures ProperName(name)
  {
    assert NameChar(name[|name| - 1]);
  }

  /** What the server prints for any node of any 16-bit namespace parses to that node. */
  lemma ServedIdParses(ns: nat, name: string)
    requires ns < 0x1_0000 && ValidName(name)
    ensures ParseQt(NodeIdString(ns, name, NODE_ID_BUFFER)) == Parsed(StringId(ns, name))
  {
    NeverTruncated(ns, name);
    ValidNameIsProper(name);
    StringIdRoundTripIff(ns, name);
  }

  lemma FormFits(f: Form)
    requires AllDigits(f.digits) && FromForm(f).Parsed?
    ensures FromForm(f).id.ns < 0x1_0000 && (FromForm(f).id.NumericId? ==> FromForm(f).id.n < 0x1_0000_0000)
  {
  }

  lemma ParsedFits(s: string)
    requires ParseQt(s).Parsed?
    ensures ParseQt(s).id.ns < 0x1_0000 && (ParseQt(s).id.NumericId? ==> ParseQt(s).id.n < 0x1_0000_0000)
  {
    FormFits(Split(TrimSpace(s), GO_KINDS).value);
  }

  /** Printing is a normal form: whatever text an id was parsed from, its printed form parses to
      the same id. */
  lemma ParsedIdsRoundTrip(s: string)
    requires ParseQt(s).Parsed?
    ensures ParseQt(Text(ParseQt(s).id)) == ParseQt(s)
  {
    match ParseQt(s).id
    case StringId(ns, name) =>
      ParsedStringIsProper(s);
      StringIdRoundTripIff(ns, name);
    case NumericId(ns, n) =>
      ParsedFits(s);
      NumericIdRoundTrip(ns, n);
  }

  // ---------- the Qt parser ----------

  /** The text up to its first line break. */
  function FirstLine(s: string): (r: string)
    ensures r <= s && ('\n' !in s ==> r == s)
  {
    if s == [] || s[0] == '\n' then [] else [s[0]] + FirstLine(s[1..])
  }

  /** An integer as the Qt engine reads it: an optional sign, digits, and a 32-bit range. */
  function ToInt(s: string): Option<int> {
    var t := TrimSpace(s);
    var negative := t != [] && t[0] == '-';
    var digits := if t != [] && (t[0] == '-' || t[0] == '+') then t[1..] else t;
    if digits == [] || !AllDigits(digits) then None
    else
      var n: int := Number(digits);
      var signed := if negative then -n else n;
      if -0x8000_0000 <= signed < 0x8000_0000 then Some(signed) else None
  }

  const QT_KINDS: set<char> := {'s', 'i', 'g', 'b'}

  /** The leftmost place where the Qt engine's expression matches: it is not tied to either end. */
  function Search(s: string): Option<Form> {
    if s == [] then None
    else
      var f := Split(s, QT_KINDS);
      if f.Some? && FirstLine(f.value.rest) != [] then Some(f.value.(rest := FirstLine(f.value.rest)))
      else Search(s[1..])
  }

  /** What the Qt engine makes of the parts it found. */
  function QtFromForm(f: Form): Option<Id> {
    match ParseUint(f.digits, 0x1_0000)
    case Fails(_) => None
    case Fits(ns) =>
      if f.kind == 's' then Some(StringId(ns, f.rest))
      else if f.kind == 'i' then
        var n := ToInt(f.rest);
        if n.None? then None else Some(NumericId(ns, if n.value < 0 then n.value + 0x1_0000_0000 else n.value))
      else None
  }

  function QtParse(s: string): Option<Id> {
    match Search(TrimSpace(s))
    case None => None
    case Some(f) => QtFromForm(f)
  }

  lemma FoundAtOnce(t: string)
    requires Split(t, GO_KINDS).Some? && '\n' !in Split(t, GO_KINDS).value.rest
    ensures Search(t) == Split(t, GO_KINDS)
  {
    assert Split(t, QT_KINDS) == Split(t, GO_KINDS);
  }

  lemma NumbersAgreeIff(f: Form)
    requires AllDigits(f.digits) && f.kind in GO_KINDS && FromForm(f).Parsed?
    ensures QtFromForm(f) == Some(FromForm(f).id) <==> (FromForm(f).id.NumericId? ==> FromForm(f).id.n < 0x8000_0000)
  {
    if f.kind == 'i' {
      var t := TrimSpace(f.rest);
      assert IsDigit(t[0]);
    }
  }

  /** On every text the Go grammar accepts, the Qt engine finds the same id, except that it
      refuses numbers of 2^31 and more. */
  lemma QtAgreesIff(s: string)
    requires ParseQt(s).Parsed?
    ensures QtParse(s) == Some(ParseQt(s).id) <==> (ParseQt(s).id.NumericId? ==> ParseQt(s).id.n < 0x8000_0000)
  {
    var t := TrimSpace(s);
    FoundAtOnce(t);
    NumbersAgreeIff(Split(t, GO_KINDS).value);
  }

  /** Digits only, white space around them aside: no sign. */
  predicate PlainNumber(rest: string) {
    TrimSpace(rest) != "" && AllDigits(TrimSpace(rest))
  }

  /** How the Go grammar can fail on a text in which the Qt engine finds an id. */
  predicate TooStrict(t: string) {
    var f := Split(t, GO_KINDS);
    f.None? || '\n' in f.value.rest || (f.value.kind == 'i' && !PlainNumber(f.value.rest))
  }

  lemma PlainNumbersFit(rest: string)
    requires ToInt(rest).Some?
    ensures ParseUint(TrimSpace(rest), 0x1_0000_0000).Fits? <==> PlainNumber(rest)
  {
    if PlainNumber(rest) {
      assert IsDigit(TrimSpace(rest)[0]);
    }
  }

  lemma FormRefusedIff(f: Form)
    requires f.kind in GO_KINDS && '\n' !in f.rest && QtFromForm(f).Some?
    ensures FromForm(f).Refused? <==> f.kind == 'i' && !PlainNumber(f.rest)
  {
    if f.kind == 'i' {
      PlainNumbersFit(f.rest);
    }
  }

  lemma GoRefusesIff(t: string)
    requires t != "" && TrimSpace(t) == t && Search(t).Some? && QtFromForm(Search(t).value).Some?
    ensures ParseQt(t).Refused? <==> TooStrict(t)
  {
    if Split(t, GO_KINDS).Some? && '\n' !in Split(t, GO_KINDS).value.rest {
      FoundAtOnce(t);
      FormRefusedIff(Split(t, GO_KINDS).value);
    }
  }

  lemma TrimmedOnce(s: string)
    ensures TrimSpace(TrimSpace(s)) == TrimSpace(s)
  {
    if TrimSpace(s) != [] {
      Untouched(TrimSpace(s));
    }
  }

  /** Of the texts in which the Qt engine finds an id, the Go grammar refuses exactly those with
      other text before the form, a line break after it, or a number that is not plain digits. */
  lemma QtAcceptsMoreIff(s: string)
    requires QtParse(s).Some?
    ensures ParseQt(s).Refused? <==> TooStrict(TrimSpace(s))
  {
    TrimmedOnce(s);
    GoRefusesIff(TrimSpace(s));
  }

  lemma SearchSkips(c: char, f: Form)
    requires c != 'n' && f.digits != [] && AllDigits(f.digits) && f.kind in GO_KINDS && f.rest != [] && '\n' !in f.rest
    ensures Split([c] + Compose(f), GO_KINDS) == None
    ensures Search([c] + Compose(f)) == Some(f)
  {
    var s := [c] + Compose(f);
    assert s[0] == c && s[1..] == Compose(f);
    assert s[..3][0] == c && "ns="[0] == 'n';
    SplitsBack(f, GO_KINDS);
    FoundAtOnce(Compose(f));
  }

  lemma QtStringForm(f: Form, ns: nat)
    requires f.kind == 's' && ParseUint(f.digits, 0x1_0000) == Fits(ns)
    ensures QtFromForm(f) == Some(StringId(ns, f.rest))
  {
  }

  // ---------- the forms, written out ----------

  /** Decimal numbers have no leading zeros, and their last digit comes last. */
  lemma DecimalDigits(n: nat, d: nat)
    requires d < 10
    ensures Decimal(d) == [['0', '1', '2', '3', '4', '5', '6', '7', '8', '9'][d]]
    ensures n > 0 ==> Decimal(10 * n + d) == Decimal(n) + Decimal(d)
  {
    assert n > 0 ==> (10 * n + d) / 10 == n && (10 * n + d) % 10 == d;
  }

  lemma TextForms(ns: nat, name: string, n: nat)
    ensures Text(StringId(ns, name)) == "ns=" + Decimal(ns) + ";s=" + name
    ensures Text(NumericId(ns, n)) == "ns=" + Decimal(ns) + ";i=" + Decimal(n)
    ensures Text(StringId(2, "Sensor1")) == "ns=2;s=Sensor1"
  {
  }

  /** A text of white space only is told apart from other texts that are not in the form. */
  lemma BlankIff(s: string)
    ensures ParseQt(s) == Refused(Empty) <==> TrimSpace(s) == ""
  {
    if TrimSpace(s) != "" && Split(TrimSpace(s), GO_KINDS).Some? {
      NotEmpty(Split(TrimSpace(s), GO_KINDS).value);
    }
  }

  lemma NotEmpty(f: Form)
    ensures FromForm(f) != Refused(Empty)
  {
  }

  /** Of the texts in the form, the Go service parses exactly those with a 16-bit namespace and, for a
      numeric id, plain digits below 2^32; the others are refused as the grammar, the range or the
      number calls for. */
  lemma FormIff(f: Form)
    requires AllDigits(f.digits) && f.digits != [] && f.kind in GO_KINDS && '\n' !in f.rest
    ensures var t := TrimSpace(f.rest); var plain := t != "" && AllDigits(t);
      (FromForm(f) == Refused(Range)
       <==> Number(f.digits) >= 65536 || (f.kind == 'i' && plain && Number(t) >= 4294967296))
      && (FromForm(f) == Refused(BadNumber) <==> Number(f.digits) < 65536 && f.kind == 'i' && !plain)
      && (f.kind == 's' && Number(f.digits) < 65536 ==>
            FromForm(f) == Parsed(StringId(Number(f.digits), f.rest)))
      && (f.kind == 'i' && Number(f.digits) < 65536 && plain && Number(t) < 4294967296 ==>
            FromForm(f) == Parsed(NumericId(Number(f.digits), Number(t))))
  {
  }

  /** The Qt engine finds forms of four kinds, but takes an id only from two of them. */
  lemma QtKindsIff(f: Form)
    requires AllDigits(f.digits) && f.digits != []
    ensures QtFromForm(f).Some?
       <==> Number(f.digits) < 65536 && (f.kind == 's' || (f.kind == 'i' && ToInt(f.rest).Some?))
    ensures f.kind == 'g' || f.kind == 'b' ==> QtFromForm(f) == None
    ensures f.kind == 's' && QtFromForm(f).Some? ==> QtFromForm(f).value == StringId(Number(f.digits), f.rest)
  {
  }

  /** It reads a sign, and a number of 32 bits with it; `t` is the text without the space around it. */
  lemma SignedNumbers(s: string, t: string, digits: string, n: int)
    requires TrimSpace(s) == t && digits != [] && AllDigits(digits) && n == Number(digits)
    ensures t == digits ==> ToInt(s) == if n < 0x8000_0000 then Some(n) else None
    ensures t == ['+'] + digits ==> ToInt(s) == if n < 0x8000_0000 then Some(n) else None
    ensures t == ['-'] + digits ==> ToInt(s) == if n <= 0x8000_0000 then Some(-n) else None
  {
    assert IsDigit(digits[0]);
    if |t| == |digits| + 1 {
      assert t == [t[0]] + digits ==> t[1..] == digits;
    }
  }

  /** A negative number becomes an unsigned one of 32 bits. */
  lemma QtNumberIs(f: Form, ns: nat, n: int)
    requires ParseUint(f.digits, 65536) == Fits(ns) && f.kind == 'i' && ToInt(f.rest) == Some(n)
    ensures QtFromForm(f) == Some(NumericId(ns, if n < 0 then 4294967296 + n else n))
  {
  }

  /** Where the Qt engine finds a form of another kind, it takes no id. */
  lemma QtRefusesOtherKinds(s: string, t: string, f: Form)
    requires TrimSpace(s) == t && Search(t) == Some(f) && (f.kind == 'g' || f.kind == 'b')
    ensures QtParse(s) == None
  {
  }

  /** A text in the form with another kind is not in the form of the Go service. */
  lemma GoRefusesOtherKinds(s: string, t: string, f: Form)
    requires TrimSpace(s) == t && t != "" && Split(t, QT_KINDS) == Some(f) && (f.kind == 'g' || f.kind == 'b')
    ensures ParseQt(s) == Refused(Malformed)
  {
    OnlyItsKind(t, f);
    NotInForm(s, t);
  }

  lemma NotInForm(s: string, t: string)
    requires TrimSpace(s) == t && t != "" && Split(t, GO_KINDS) == None
    ensures ParseQt(s) == Refused(Malformed)
  {
  }

  lemma OnlyItsKind(s: string, f: Form)
    requires s != "" && Split(s, QT_KINDS) == Some(f) && f.kind !in GO_KINDS
    ensures Split(s, GO_KINDS) == None
  {
  }

  /** Other text before a form is such a case. */
  lemma QtAcceptsMore(c: char, ns: nat, name: string)
    requires ns < 0x1_0000 && ProperName(name) && c != 'n' && !IsSpace(c)
    ensures QtParse([c] + Text(StringId(ns, name))) == Some(StringId(ns, name))
    ensures ParseQt([c] + Text(StringId(ns, name))) == Refused(Malformed)
  {
    var f := Form(Decimal(ns), 's', name);
    var s := [c] + Compose(f);
    assert Text(StringId(ns, name)) == Compose(f);
    assert s[0] == c && s[|s| - 1] == name[|name| - 1];
    Untouched(s);
    SearchSkips(c, f);
    DecimalParses(ns, 0x1_0000);
    QtStringForm(f, ns);
  }
}
