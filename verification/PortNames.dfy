/**
 Switch port names of the two supported vendors: parsing, printing and the translation of a whole
 port set. Integers are 64 bits wide and wrap; Go's division truncates towards zero.
 */
module PortNames {
  import opened Wrappers

  const INT_MIN := -0x8000_0000_0000_0000
  const INT_MAX := 0x7FFF_FFFF_FFFF_FFFF

  type Int = x: int | INT_MIN <= x <= INT_MAX

  function Wrap(x: int): Int {
    (x - INT_MIN) % (INT_MAX - INT_MIN + 1) + INT_MIN
  }

  lemma InRange(x: Int)
    ensures Wrap(x) == x
  {
  }

  function Quo4(x: int): int {
    if x >= 0 then x / 4 else -((-x) / 4)
  }

  function Rem4(x: int): int {
    x - 4 * Quo4(x)
  }

  datatype Vendor = Cumulus | Sonic | OtherVendor(name: string)

  datatype PortError = Minus | NoPrefix | PrefixNotFirst | NotANumber | NotPositive | UnknownVendor

  // ---------- numbers as text ----------

  function Digit(d: nat): char
    requires d < 10
  {
    ('0' as int + d) as char
  }

  function Digits(n: nat): string {
    if n < 10 then [Digit(n)] else Digits(n / 10) + [Digit(n % 10)]
  }

  function Itoa(n: int): string {
    if n < 0 then "-" + Digits(-n) else Digits(n)
  }

  predicate AllDigits(s: string) {
    forall i :: 0 <= i < |s| ==> '0' <= s[i] <= '9'
  }

  function DigitsValue(s: string): nat
    requires AllDigits(s)
  {
    if s == "" then 0
    else 10 * DigitsValue(s[..|s| - 1]) + (s[|s| - 1] as int - '0' as int)
  }

  /** strconv.Atoi: an optional sign, at least one digit, and the value must fit. */
  function Atoi(s: string): Option<Int> {
    var signed := s != "" && (s[0] == '-' || s[0] == '+');
    var body := if signed then s[1..] else s;
    if body == "" || !AllDigits(body) then None
    else
      var magnitude: int := DigitsValue(body);
      var v := if signed && s[0] == '-' then -magnitude else magnitude;
      if INT_MIN <= v <= INT_MAX then Some(v) else None
  }

  /** The position of the first occurrence of sep at or after i. */
  function Find(s: string, sep: string, i: nat): Option<nat>
    requires i <= |s|
    ensures Find(s, sep, i).Some? ==> i <= Find(s, sep, i).value && Find(s, sep, i).value + |sep| <= |s|
    decreases |s| - i
  {
    if i + |sep| > |s| then None
    else if s[i..i + |sep|] == sep then Some(i)
    else if i == |s| then None
    else Find(s, sep, i + 1)
  }

  /** strings.Cut: what stands before and after the first occurrence of the separator. */
  function Cut(s: string, sep: string): Option<(string, string)> {
    match Find(s, sep, 0)
    case None => None
    case Some(i) => Some((s[..i], s[i + |sep|..]))
  }

  // ---------- parsing and printing ----------

  function SonicPortNameToLine(port: string): Result<Int, PortError> {
    if '-' in port then Err(Minus)
    else
      match Cut(port, "Ethernet")
      case None => Err(NoPrefix)
      case Some((prefix, lineString)) =>
        if prefix != "" then Err(PrefixNotFirst)
        else
          match Atoi(lineString)
          case None => Err(NotANumber)
          case Some(line) => Ok(line)
  }

  function CumulusPortNameToLine(port: string): Result<Int, PortError> {
    if '-' in port then Err(Minus)
    else
      match Cut(port, "swp")
      case None => Err(NoPrefix)
      case Some((prefix, suffix)) =>
        if prefix != "" then Err(PrefixNotFirst)
        else
          match Cut(suffix, "s")
          case None =>
            (match Atoi(suffix)
             case None => Err(NotANumber)
             case Some(count) => if count <= 0 then Err(NotPositive) else Ok(Wrap((count - 1) * 4)))
          case Some((countString, indexString)) =>
            match Atoi(countString)
            case None => Err(NotANumber)
            case Some(count) =>
              if count <= 0 then Err(NotPositive)
              else
                match Atoi(indexString)
                case None => Err(NotANumber)
                case Some(index) => Ok(Wrap((count - 1) * 4 + index))
  }

  function PortNameToLine(port: string, os: Vendor): Result<Int, PortError> {
    match os
    case Sonic => SonicPortNameToLine(port)
    case Cumulus => CumulusPortNameToLine(port)
    case OtherVendor(_) => Err(UnknownVendor)
  }

  function SonicPort(line: Int): string {
    "Ethernet" + Itoa(line)
  }

  predicate SharesPort(line: Int, lines: set<Int>) {
    exists l | l in lines :: l != line && Quo4(l) == Quo4(line)
  }

  /** The lines of the whole switch decide whether a port is printed as broken out. */
  function CumulusPort(line: Int, lines: set<Int>): string {
    if Rem4(line) > 0 || SharesPort(line, lines)
    then "swp" + Itoa(Quo4(line) + 1) + "s" + Itoa(Rem4(line))
    else "swp" + Itoa(Quo4(line) + 1)
  }

  function TargetPort(port: string, source: Vendor, target: Vendor, lines: set<Int>): Result<string, PortError> {
    match PortNameToLine(port, source)
    case Err(e) => Err(e)
    case Ok(line) =>
      match target
      case Sonic => Ok(SonicPort(line))
      case Cumulus => Ok(CumulusPort(line, lines))
      case OtherVendor(_) => Err(UnknownVendor)
  }

  // ---------- text facts ----------

  lemma {:induction false} DigitsRoundTrip(n: nat)
    ensures AllDigits(Digits(n)) && Digits(n) != "" && DigitsValue(Digits(n)) == n
  {
    if n < 10 {
      assert Digits(n)[..0] == "";
    } else {
      DigitsRoundTrip(n / 10);
      assert Digits(n)[..|Digits(n)| - 1] == Digits(n / 10);
    }
  }

  lemma AtoiUndoesItoa(n: Int)
    requires n >= 0
    ensures Atoi(Itoa(n)) == Some(n) && AllDigits(Itoa(n))
  {
    DigitsRoundTrip(n);
  }

  lemma ItoaIsInjective(m: int, n: int)
    requires Itoa(m) == Itoa(n)
    ensures m == n
  {
    DigitsRoundTrip(if m < 0 then -m else m);
    DigitsRoundTrip(if n < 0 then -n else n);
    assert m < 0 ==> Itoa(m)[0] == '-' && Itoa(m)[1..] == Digits(-m);
    assert n < 0 ==> Itoa(n)[0] == '-' && Itoa(n)[1..] == Digits(-n);
  }

  /** The first "s" after a run of digits is the one that follows it. */
  lemma {:induction false} FindAfterDigits(d: string, rest: string, i: nat)
    requires AllDigits(d) && i <= |d|
    ensures rest != "" && rest[0] == 's' ==> Find(d + rest, "s", i) == Some(|d|)
    ensures rest == "" ==> Find(d + rest, "s", i) == None
    decreases |d| - i
  {
    var s := d + rest;
    if i < |d| {
      assert s[i] == d[i];
      assert s[i..i + 1][0] != "s"[0];
      FindAfterDigits(d, rest, i + 1);
    }
  }

  lemma CutPrefix(prefix: string, rest: string)
    ensures Cut(prefix + rest, prefix) == Some(("", rest))
  {
    assert (prefix + rest)[0..0 + |prefix|] == prefix;
    assert (prefix + rest)[..0] == "" && (prefix + rest)[0 + |prefix|..] == rest;
  }

  lemma NoMinus(prefix: string, d: string)
    requires '-' !in prefix && AllDigits(d)
    ensures '-' !in prefix + d
  {
  }

  // ---------- one port ----------

  lemma SonicParsesPrinted(line: Int)
    requires line >= 0
    ensures PortNameToLine(SonicPort(line), Sonic) == Ok(line)
  {
    AtoiUndoesItoa(line);
    CutPrefix("Ethernet", Itoa(line));
    NoMinus("Ethernet", Itoa(line));
  }

  lemma PlainPort(count: Int)
    requires count >= 0
    ensures CumulusPortNameToLine("swp" + Itoa(count)) ==
            if count == 0 then Err(NotPositive) else Ok(Wrap((count - 1) * 4))
  {
    hide Atoi, Itoa, Find, AllDigits;
    var c := Itoa(count);
    AtoiUndoesItoa(count);
    CutPrefix("swp", c);
    FindAfterDigits(c, "", 0);
    assert c + "" == c;
    NoMinus("swp", c);
  }

  lemma BrokenOutPort(count: Int, index: Int)
    requires count >= 0 && index >= 0
    ensures CumulusPortNameToLine("swp" + Itoa(count) + "s" + Itoa(index)) ==
            if count == 0 then Err(NotPositive) else Ok(Wrap((count - 1) * 4 + index))
  {
    hide Atoi, Itoa, Find, AllDigits;
    var c, i := Itoa(count), Itoa(index);
    var suffix := c + ("s" + i);
    var port := "swp" + c + "s" + i;
    assert port == "swp" + suffix;
    AtoiUndoesItoa(count);
    AtoiUndoesItoa(index);
    CutPrefix("swp", suffix);
    FindAfterDigits(c, "s" + i, 0);
    assert suffix[..|c|] == c && suffix[|c| + 1..] == i;
    assert Cut(suffix, "s") == Some((c, i));
    NoMinus("swp", c);
    NoMinus("swp" + c + "s", i);
  }

  lemma PortAndBreakout(line: Int) returns (count: Int, index: Int)
    requires line >= 0
    ensures count == Quo4(line) + 1 && index == Rem4(line) && count >= 1 && 0 <= index < 4
    ensures Wrap((count - 1) * 4 + index) == line && (index == 0 ==> Wrap((count - 1) * 4) == line)
  {
    count, index := Quo4(line) + 1, Rem4(line);
    InRange(line);
    assert (count - 1) * 4 + index == line;
  }

  /** Whatever the other lines are, a printed name means its line. */
  lemma CumulusParsesPrinted(line: Int, lines: set<Int>)
    requires line >= 0
    ensures PortNameToLine(CumulusPort(line, lines), Cumulus) == Ok(line)
  {
    hide CumulusPortNameToLine, Itoa, Quo4, Rem4, Wrap, SharesPort;
    var count, index := PortAndBreakout(line);
    if index > 0 || SharesPort(line, lines) {
      BrokenOutPort(count, index);
    } else {
      PlainPort(count);
    }
  }

  /** A port and its first breakout have the same line, so they get the same SONiC name. */
  lemma PlainAndBrokenOutShareALine()
    ensures PortNameToLine("swp1", Cumulus) == Ok(0) && PortNameToLine("swp1s0", Cumulus) == Ok(0)
    ensures SonicPort(0) == "Ethernet0"
  {
    hide CumulusPort, CumulusPortNameToLine, SonicPort;
    CumulusParsesPrinted(0, {});
    CumulusParsesPrinted(0, {0, 1});
    PrintedPorts();
  }

  lemma PrintedPorts()
    ensures SonicPort(0) == "Ethernet0" && CumulusPort(0, {}) == "swp1" && CumulusPort(0, {0, 1}) == "swp1s0"
  {
    assert Itoa(0) == "0" && Itoa(1) == "1" && Quo4(0) == Rem4(0) == 0;
    assert SharesPort(0, {0, 1}) by { assert 1 in {0, 1} && Quo4(1) == Quo4(0); }
    assert !SharesPort(0, {});
    hide Itoa, Digits, Quo4, Rem4, SharesPort;
  }

  /** A parsed SONiC line is never negative. */
  lemma SonicLinesAreNotNegative(port: string)
    requires SonicPortNameToLine(port).Ok?
    ensures SonicPortNameToLine(port).value >= 0
  {
    var i := Find(port, "Ethernet", 0).value;
    var lineString := port[i + |"Ethernet"|..];
    assert lineString != "" ==> lineString[0] == port[i + |"Ethernet"|];
  }

  // ---------- a whole port set ----------

  function LinesOf(ports: set<string>, os: Vendor): set<Int> {
    set p | p in ports && PortNameToLine(p, os).Ok? :: PortNameToLine(p, os).value
  }

  predicate Translatable(ports: set<string>, source: Vendor, target: Vendor) {
    forall p | p in ports :: TargetPort(p, source, target, LinesOf(ports, source)).Ok?
  }

  function NewName(port: string, ports: set<string>, source: Vendor, target: Vendor): string {
    var r := TargetPort(port, source, target, LinesOf(ports, source));
    if r.Ok? then r.value else ""
  }

  /**
   What the translation of a port map can be: keyed by the new names, every entry taken from some
   port of that new name - which one, if there are several, depends on the map order.
   */
  ghost predicate IsTranslation<T>(m: map<string, T>, source: Vendor, target: Vendor, out: map<string, T>) {
    && Translatable(m.Keys, source, target)
    && (forall p | p in m :: NewName(p, m.Keys, source, target) in out)
    && (forall t | t in out :: exists p | p in m :: NewName(p, m.Keys, source, target) == t && out[t] == m[p])
  }

  method TranslatePorts<T>(m: map<string, T>, source: Vendor, target: Vendor)
    returns (r: Result<map<string, T>, PortError>)
    ensures source == target ==> r == Ok(m)
    ensures source != target && r.Ok? ==> IsTranslation(m, source, target, r.value)
    ensures source != target && r.Err? ==> !Translatable(m.Keys, source, target)
  {
    if source == target {
      return Ok(m);
    }
    var lines: set<Int> := {};
    var todo := m.Keys;
    while todo != {}
      invariant todo <= m.Keys
      invariant lines == LinesOf(m.Keys - todo, source)
      invariant forall p | p in m.Keys - todo :: PortNameToLine(p, source).Ok?
      decreases todo
    {
      var p :| p in todo;
      var l := PortNameToLine(p, source);
      if l.Err? {
        return Err(l.error);
      }
      assert m.Keys - (todo - {p}) == (m.Keys - todo) + {p};
      lines := lines + {l.value};
      todo := todo - {p};
    }
    assert m.Keys - todo == m.Keys;
    var out: map<string, T> := map[];
    todo := m.Keys;
    while todo != {}
      invariant todo <= m.Keys
      invariant forall p | p in m.Keys - todo ::
                  && TargetPort(p, source, target, lines).Ok?
                  && NewName(p, m.Keys, source, target) in out
      invariant forall t | t in out :: exists p | p in m.Keys - todo ::
                  NewName(p, m.Keys, source, target) == t && out[t] == m[p]
      decreases todo
    {
      var p :| p in todo;
      var t := TargetPort(p, source, target, lines);
      if t.Err? {
        return Err(t.error);
      }
      out := out[t.value := m[p]];
      todo := todo - {p};
    }
    r := Ok(out);
  }

  ghost predicate DistinctLines(ports: set<string>, os: Vendor) {
    forall p, q | p in ports && q in ports && PortNameToLine(p, os).Ok? && p != q ::
      PortNameToLine(p, os) != PortNameToLine(q, os)
  }

  lemma PrintedLinesDiffer(p: string, q: string, ports: set<string>, source: Vendor, target: Vendor)
    requires p in ports && q in ports && source != target && Translatable(ports, source, target)
    requires NewName(p, ports, source, target) == NewName(q, ports, source, target)
    ensures PortNameToLine(p, source) == PortNameToLine(q, source)
  {
    var l, k := PortNameToLine(p, source).value, PortNameToLine(q, source).value;
    var lines := LinesOf(ports, source);
    if target.Sonic? {
      assert SonicPort(l)[8..] == Itoa(l) && SonicPort(k)[8..] == Itoa(k);
      ItoaIsInjective(l, k);
    } else {
      SonicLinesAreNotNegative(p);
      SonicLinesAreNotNegative(q);
      CumulusParsesPrinted(l, lines);
      CumulusParsesPrinted(k, lines);
    }
  }

  /** With distinct lines every entry is found again under its new name, and nothing else is. */
  lemma TranslationLosesNothing<T>(m: map<string, T>, source: Vendor, target: Vendor, out: map<string, T>)
    requires source != target && IsTranslation(m, source, target, out) && DistinctLines(m.Keys, source)
    ensures forall p | p in m :: out[NewName(p, m.Keys, source, target)] == m[p]
    ensures forall p, q | p in m && q in m
            && NewName(p, m.Keys, source, target) == NewName(q, m.Keys, source, target) :: p == q
  {
    hide SonicPortNameToLine, CumulusPortNameToLine, SonicPort, CumulusPort;
    forall p, q | p in m && q in m && NewName(p, m.Keys, source, target) == NewName(q, m.Keys, source, target)
      ensures p == q
    {
      PrintedLinesDiffer(p, q, m.Keys, source, target);
    }
  }

  lemma TranslationKeepsSize<T>(m: map<string, T>, source: Vendor, target: Vendor, out: map<string, T>)
    requires source != target && IsTranslation(m, source, target, out) && DistinctLines(m.Keys, source)
    ensures |out| == |m|
  {
    TranslationLosesNothing(m, source, target, out);
    hide NewName, IsTranslation, DistinctLines;
    TranslationKeys(m, source, target, out);
    InjectiveImageSize(m.Keys, p => NewName(p, m.Keys, source, target));
  }

  lemma TranslationKeys<T>(m: map<string, T>, source: Vendor, target: Vendor, out: map<string, T>)
    requires IsTranslation(m, source, target, out)
    ensures var f := p => NewName(p, m.Keys, source, target);
            out.Keys == set p | p in m.Keys :: f(p)
  {
    hide NewName, TargetPort;
  }

  lemma {:induction false} InjectiveImageSize(ports: set<string>, f: string -> string)
    requires forall x, y | x in ports && y in ports && f(x) == f(y) :: x == y
    ensures |set p | p in ports :: f(p)| == |ports|
  {
    if ports != {} {
      var x :| x in ports;
      var rest := ports - {x};
      InjectiveImageSize(rest, f);
      assert (set p | p in ports :: f(p)) == (set p | p in rest :: f(p)) + {f(x)};
    }
  }

  // ---------- there and back ----------

  lemma ThereLines(ports: set<string>, source: Vendor, target: Vendor, renamed: set<string>)
    requires OppositeVendors(source, target)
    requires Translatable(ports, source, target)
    requires forall p | p in ports :: PortNameToLine(p, source).value >= 0
    requires renamed == set p | p in ports :: NewName(p, ports, source, target)
    ensures LinesOf(renamed, target) == LinesOf(ports, source)
    ensures forall p | p in ports ::
              PortNameToLine(NewName(p, ports, source, target), target) == PortNameToLine(p, source)
  {
    forall p | p in ports
      ensures PortNameToLine(NewName(p, ports, source, target), target) == PortNameToLine(p, source)
    {
      var line := PortNameToLine(p, source).value;
      if target.Sonic? {
        SonicParsesPrinted(line);
      } else {
        CumulusParsesPrinted(line, LinesOf(ports, source));
      }
    }
    forall l | l in LinesOf(ports, source) ensures l in LinesOf(renamed, target) {
      var p :| p in ports && PortNameToLine(p, source) == Ok(l);
      assert NewName(p, ports, source, target) in renamed;
    }
  }

  /** The name the other vendor's translation would give back. */
  function Reprinted(port: string, ports: set<string>, os: Vendor): string {
    var line := PortNameToLine(port, os);
    if line.Err? then ""
    else if os.Sonic? then SonicPort(line.value)
    else CumulusPort(line.value, LinesOf(ports, os))
  }

  ghost predicate Canonical(ports: set<string>, os: Vendor) {
    forall p | p in ports :: p == Reprinted(p, ports, os)
  }

  lemma MinusInItoa(before: string, n: int, rest: string)
    requires n < 0
    ensures '-' in before + Itoa(n) + rest
  {
    assert (before + Itoa(n) + rest)[|before|] == '-';
  }

  /** A parsed line that is negative, after an overflow, is printed back to another name. */
  lemma NegativeLineIsNotReprinted(port: string, lines: set<Int>)
    requires CumulusPortNameToLine(port).Ok? && CumulusPortNameToLine(port).value < 0
    ensures port != CumulusPort(CumulusPortNameToLine(port).value, lines)
  {
    var line := CumulusPortNameToLine(port).value;
    var count, index := Quo4(line) + 1, Rem4(line);
    assert line == 4 * (count - 1) + index && index <= 0 && count <= 1;
    hide CumulusPortNameToLine, Itoa, Quo4, Rem4, Wrap, SharesPort;
    if SharesPort(line, lines) {
      assert CumulusPort(line, lines) == "swp" + Itoa(count) + "s" + Itoa(index);
      if count < 0 {
        MinusInItoa("swp", count, "s" + Itoa(index));
        assert "swp" + Itoa(count) + ("s" + Itoa(index)) == "swp" + Itoa(count) + "s" + Itoa(index);
      } else if index < 0 {
        MinusInItoa("swp" + Itoa(count) + "s", index, "");
        assert "swp" + Itoa(count) + "s" + Itoa(index) + "" == "swp" + Itoa(count) + "s" + Itoa(index);
      } else {
        BrokenOutPort(count, index);
      }
    } else if count < 0 {
      MinusInItoa("swp", count, "");
      assert "swp" + Itoa(count) + "" == "swp" + Itoa(count);
    } else {
      PlainPort(count);
    }
  }

  lemma NegativeLineIsNotParsedBack(line: Int)
    requires line < 0
    ensures SonicPortNameToLine(SonicPort(line)) == Err(Minus)
  {
    MinusInItoa("Ethernet", line, "");
    assert "Ethernet" + Itoa(line) + "" == SonicPort(line);
  }

  ghost predicate OppositeVendors(os: Vendor, other: Vendor) {
    (os == Sonic && other == Cumulus) || (os == Cumulus && other == Sonic)
  }

  lemma LinesAreNotNegative<T>(m: map<string, T>, os: Vendor, other: Vendor, there: map<string, T>)
    requires OppositeVendors(os, other) && IsTranslation(m, os, other, there)
    requires Translatable(there.Keys, other, os)
    ensures forall p | p in m :: PortNameToLine(p, os).Ok? && PortNameToLine(p, os).value >= 0
  {
    forall p | p in m ensures PortNameToLine(p, os).Ok? && PortNameToLine(p, os).value >= 0 {
      assert TargetPort(p, os, other, LinesOf(m.Keys, os)).Ok?;
      var line := PortNameToLine(p, os).value;
      if os.Sonic? {
        SonicLinesAreNotNegative(p);
      } else if line < 0 {
        NegativeLineIsNotParsedBack(line);
        assert false;
      }
    }
  }

  /** Printing the translated name's line again gives the name this switch would print itself. */
  lemma TwiceRenamed<T>(m: map<string, T>, os: Vendor, other: Vendor, there: map<string, T>)
    requires OppositeVendors(os, other) && IsTranslation(m, os, other, there)
    requires Translatable(there.Keys, other, os)
    ensures forall p | p in m ::
              && NewName(NewName(p, m.Keys, os, other), there.Keys, other, os) == Reprinted(p, m.Keys, os)
              && PortNameToLine(NewName(p, m.Keys, os, other), other) == PortNameToLine(p, os)
  {
    hide SonicPortNameToLine, CumulusPortNameToLine, SonicPort, CumulusPort;
    LinesAreNotNegative(m, os, other, there);
    assert there.Keys == set p | p in m.Keys :: NewName(p, m.Keys, os, other);
    ThereLines(m.Keys, os, other, there.Keys);
  }

  lemma ReprintedIsCanonical(p: string, q: string, ports: set<string>, os: Vendor)
    requires !os.OtherVendor?
    requires PortNameToLine(q, os).Ok? && PortNameToLine(q, os).value >= 0 && p == Reprinted(q, ports, os)
    ensures p == Reprinted(p, ports, os)
  {
    var line := PortNameToLine(q, os).value;
    if os.Sonic? {
      SonicParsesPrinted(line);
    } else {
      CumulusParsesPrinted(line, LinesOf(ports, os));
    }
  }

  lemma OriginOf<T>(m: map<string, T>, os: Vendor, other: Vendor, there: map<string, T>, back: map<string, T>,
                    p: string)
    returns (q: string)
    requires OppositeVendors(os, other) && p in back
    requires IsTranslation(m, os, other, there) && IsTranslation(there, other, os, back)
    ensures q in m && p == Reprinted(q, m.Keys, os)
  {
    TwiceRenamed(m, os, other, there);
    hide Reprinted, PortNameToLine;
    var t :| t in there && NewName(t, there.Keys, other, os) == p;
    q :| q in m && NewName(q, m.Keys, os, other) == t;
  }

  lemma CameBack<T>(m: map<string, T>, os: Vendor, other: Vendor, there: map<string, T>, back: map<string, T>,
                    p: string)
    requires OppositeVendors(os, other) && p in back
    requires IsTranslation(m, os, other, there) && IsTranslation(there, other, os, back)
    ensures p == Reprinted(p, m.Keys, os)
  {
    LinesAreNotNegative(m, os, other, there);
    var q := OriginOf(m, os, other, there, back, p);
    hide *;
    ReprintedIsCanonical(p, q, m.Keys, os);
  }

  lemma RoundTripNeedsCanonical<T>(m: map<string, T>, os: Vendor, other: Vendor, there: map<string, T>,
                                   back: map<string, T>)
    requires OppositeVendors(os, other)
    requires IsTranslation(m, os, other, there) && IsTranslation(there, other, os, back) && back == m
    ensures Canonical(m.Keys, os)
  {
    hide Reprinted, IsTranslation;
    forall p | p in m ensures p == Reprinted(p, m.Keys, os) {
      CameBack(m, os, other, there, back, p);
    }
  }

  lemma CanonicalRoundTrip<T>(m: map<string, T>, os: Vendor, other: Vendor, there: map<string, T>, back: map<string, T>)
    requires OppositeVendors(os, other)
    requires IsTranslation(m, os, other, there) && IsTranslation(there, other, os, back) && Canonical(m.Keys, os)
    ensures back == m
  {
    hide SonicPortNameToLine, CumulusPortNameToLine, SonicPort, CumulusPort;
    TwiceRenamed(m, os, other, there);
    LinesAreNotNegative(m, os, other, there);
    TranslationLosesNothing(m, os, other, there);
    forall t, u | t in there && u in there && PortNameToLine(t, other).Ok? && t != u
      ensures PortNameToLine(t, other) != PortNameToLine(u, other)
    {
      var p :| p in m && NewName(p, m.Keys, os, other) == t;
      var q :| q in m && NewName(q, m.Keys, os, other) == u;
      assert p == Reprinted(p, m.Keys, os) && q == Reprinted(q, m.Keys, os);
    }
    TranslationLosesNothing(there, other, os, back);
    forall p | p in m ensures p in back && back[p] == m[p] {
      assert NewName(NewName(p, m.Keys, os, other), there.Keys, other, os) == p;
    }
    forall p | p in back ensures p in m {
      var q := OriginOf(m, os, other, there, back, p);
    }
  }

  /**
   Translating to the other vendor and back is the identity exactly when every name is the one this
   switch's vendor prints for its line in this port set - whatever the map order picked on the way.
   */
  lemma RoundTripExactly<T>(m: map<string, T>, os: Vendor, other: Vendor, there: map<string, T>, back: map<string, T>)
    requires OppositeVendors(os, other)
    requires IsTranslation(m, os, other, there) && IsTranslation(there, other, os, back)
    ensures back == m <==> Canonical(m.Keys, os)
  {
    if back == m {
      RoundTripNeedsCanonical(m, os, other, there, back);
    }
    if Canonical(m.Keys, os) {
      CanonicalRoundTrip(m, os, other, there, back);
    }
  }

  /** On canonical names the way back never fails. */
  lemma CanonicalComesBack<T>(m: map<string, T>, os: Vendor, other: Vendor, there: map<string, T>)
    requires OppositeVendors(os, other) && IsTranslation(m, os, other, there) && Canonical(m.Keys, os)
    ensures Translatable(there.Keys, other, os)
  {
    forall t | t in there ensures TargetPort(t, other, os, LinesOf(there.Keys, other)).Ok? {
      var p :| p in m && NewName(p, m.Keys, os, other) == t;
      assert TargetPort(p, os, other, LinesOf(m.Keys, os)).Ok? && p == Reprinted(p, m.Keys, os);
      var line := PortNameToLine(p, os).value;
      if os.Sonic? {
        SonicLinesAreNotNegative(p);
        CumulusParsesPrinted(line, LinesOf(m.Keys, os));
      } else {
        if line < 0 {
          NegativeLineIsNotReprinted(p, LinesOf(m.Keys, os));
        }
        SonicParsesPrinted(line);
      }
    }
  }
}
