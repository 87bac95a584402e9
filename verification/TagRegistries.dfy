/** Tag names: the registry and its text form, in memory and on disk (src/tag.rs,
    src/read/inner.rs). */
module TagRegistries {
  import opened Bytes

  type Entry = (string, u32)

  // ---- Trimming ---------------------------------------------------------------

  /** Unicode white space, as `str::trim` knows it. */
  predicate IsSpace(c: char)
  {
    '\U{0009}' <= c <= '\U{000D}' || c == ' ' || c == '\U{0085}' || c == '\U{00A0}' || c == '\U{1680}'
    || '\U{2000}' <= c <= '\U{200A}' || c == '\U{2028}' || c == '\U{2029}' || c == '\U{202F}' || c == '\U{205F}' || c == '\U{3000}'
  }

  /** The characters Unicode calls white space. */
  const SPACES: string :=
    "\t\n\U{000B}\U{000C}\r \U{0085}\U{00A0}\U{1680}\U{2000}\U{2001}\U{2002}\U{2003}\U{2004}\U{2005}\U{2006}\U{2007}"
    + "\U{2008}\U{2009}\U{200A}\U{2028}\U{2029}\U{202F}\U{205F}\U{3000}"

  lemma SpacesAre(c: char)
    ensures IsSpace(c) <==> c in SPACES
  {
    var n := c as int;
    if IsSpace(c) {
      var k := if n <= 0x0d then n - 9 else if n == 0x20 then 5 else if n == 0x85 then 6 else if n == 0xa0 then 7
               else if n == 0x1680 then 8 else if n <= 0x200a then n - 0x2000 + 9 else if n == 0x2028 then 20
               else if n == 0x2029 then 21 else if n == 0x202f then 22 else if n == 0x205f then 23 else 24;
      assert SPACES[k] == c;
    }
  }

  function TrimStart(s: string): (r: string)
  {
    if s != [] && IsSpace(s[0]) then TrimStart(s[1..]) else s
  }

  function TrimEnd(s: string): (r: string)
    ensures |r| <= |s| && r == s[..|r|]
  {
    if s != [] && IsSpace(s[|s| - 1]) then TrimEnd(s[..|s| - 1]) else s
  }

  function Trim(s: string): (r: string)
  {
    TrimEnd(TrimStart(s))
  }

  /** Starts and ends with something visible. */
  predicate Snug(s: string)
  {
    s != [] && !IsSpace(s[0]) && !IsSpace(s[|s| - 1])
  }

  lemma SnugIsTrimmed(s: string)
    requires Snug(s)
    ensures Trim(s) == s
  {
  }

  lemma {:induction false} TrimStartShorter(s: string)
    ensures |TrimStart(s)| <= |s| && (|TrimStart(s)| == |s| ==> TrimStart(s) == s && (s == [] || !IsSpace(s[0])))
    ensures TrimStart(s) == [] || !IsSpace(TrimStart(s)[0])
  {
    hide IsSpace;
    if s != [] && IsSpace(s[0]) {
      TrimStartShorter(s[1..]);
    }
  }

  lemma {:induction false} TrimEndShorter(s: string)
    ensures |TrimEnd(s)| <= |s| && (|TrimEnd(s)| == |s| ==> TrimEnd(s) == s && (s == [] || !IsSpace(s[|s| - 1])))
  {
    hide IsSpace;
    if s != [] && IsSpace(s[|s| - 1]) {
      TrimEndShorter(s[..|s| - 1]);
    }
  }

  lemma TrimmedIsSnug(s: string)
    requires s != [] && Trim(s) == s
    ensures Snug(s)
  {
    hide TrimStart, TrimEnd, IsSpace;
    TrimStartShorter(s);
    TrimEndShorter(TrimStart(s));
  }

  // ---- Decimal numbers ------------------------------------------------------------

  function Digit(d: nat): char
    requires d < 10
  {
    '0' + d as char
  }

  /** `u32::to_string`. */
  function Decimal(n: nat): (s: string)
    ensures s != []
  {
    if n < 10 then [Digit(n)] else Decimal(n / 10) + [Digit(n % 10)]
  }

  predicate IsDigit(c: char)
  {
    '0' <= c <= '9'
  }

  /** Reading digits one at a time, failing as soon as the value passes the u32 range. */
  function Digits(s: string, acc: nat): (r: Option<u32>)
    requires acc < U32_LIMIT
    decreases |s|
  {
    if s == [] then Some(acc)
    else if !IsDigit(s[0]) then None
    else
      var next := 10 * acc + (s[0] - '0') as nat;
      if next >= U32_LIMIT then None else Digits(s[1..], next)
  }

  /** `parse::<u32>`: digits, after an optional plus sign. */
  function ParseU32(s: string): (r: Option<u32>)
  {
    if s == [] || s == "+" then None
    else if s[0] == '+' then Digits(s[1..], 0)
    else Digits(s, 0)
  }

  lemma {:induction false} DigitsAppend(s: string, t: string, acc: nat)
    requires acc < U32_LIMIT && Digits(s, acc).Some?
    ensures Digits(s + t, acc) == Digits(t, Digits(s, acc).value)
    decreases |s|
  {
    if s == [] {
      assert s + t == t;
    } else {
      assert (s + t)[1..] == s[1..] + t;
      DigitsAppend(s[1..], t, 10 * acc + (s[0] - '0') as nat);
    }
  }

  lemma {:induction false} DecimalDigits(n: nat)
    ensures forall c :: c in Decimal(n) ==> IsDigit(c)
    ensures n < U32_LIMIT ==> Digits(Decimal(n), 0) == Some(n)
  {
    if n >= 10 {
      DecimalDigits(n / 10);
      if n < U32_LIMIT {
        DigitsAppend(Decimal(n / 10), [Digit(n % 10)], 0);
        OneDigit(n % 10, n / 10);
      }
    } else {
      OneDigit(n, 0);
    }
  }

  lemma OneDigit(d: nat, acc: nat)
    requires d < 10 && 10 * acc + d < U32_LIMIT
    ensures Digits([Digit(d)], acc) == Some(10 * acc + d) && IsDigit(Digit(d))
  {
  }

  /** Every u32 prints and parses back. */
  lemma NumberRoundTrip(n: u32)
    ensures ParseU32(Decimal(n)) == Some(n)
  {
    DecimalDigits(n);
    assert Decimal(n)[0] in Decimal(n);
  }

  /** The value of a string of digits. */
  function ValueOf(s: string): (v: nat)
    requires forall c :: c in s ==> IsDigit(c)
  {
    if s == [] then 0
    else
      assert IsDigit(s[|s| - 1]);
      10 * ValueOf(s[..|s| - 1]) + (s[|s| - 1] - '0') as nat
  }

  ghost predicate AllDigits(s: string)
  {
    forall c :: c in s ==> IsDigit(c)
  }

  lemma {:induction false} DigitsOf(s: string)
    ensures AllDigits(s) && ValueOf(s) < U32_LIMIT ==> Digits(s, 0) == Some(ValueOf(s))
    ensures !(AllDigits(s) && ValueOf(s) < U32_LIMIT) ==> Digits(s, 0) == None
  {
    if s != [] {
      var n := |s| - 1;
      assert s == s[..n] + [s[n]];
      DigitsOf(s[..n]);
      if Digits(s[..n], 0).Some? {
        DigitsAppend(s[..n], [s[n]], 0);
        assert AllDigits(s) <==> AllDigits(s[..n]) && IsDigit(s[n]);
      } else {
        DigitsFail(s[..n], [s[n]], 0);
      }
    }
  }

  lemma {:induction false} DigitsFail(s: string, t: string, acc: nat)
    requires acc < U32_LIMIT && Digits(s, acc).None?
    ensures Digits(s + t, acc).None?
    decreases |s|
  {
    assert (s + t)[1..] == s[1..] + t && (s + t)[0] == s[0];
    if IsDigit(s[0]) && 10 * acc + (s[0] - '0') as nat < U32_LIMIT {
      DigitsFail(s[1..], t, 10 * acc + (s[0] - '0') as nat);
    }
  }

  /** A number is read exactly from one digit or more, after an optional plus sign, whose value a word can
      hold, and it is that value. */
  lemma NumbersAre(s: string)
    ensures
      var digits := if |s| > 0 && s[0] == '+' then s[1..] else s;
      ParseU32(s) == if |digits| > 0 && AllDigits(digits) && ValueOf(digits) < 0x1_0000_0000 then Some(ValueOf(digits)) else None
  {
    DigitsOf(if |s| > 0 && s[0] == '+' then s[1..] else s);
    hide Digits;
  }

  // ---- The registry ------------------------------------------------------------------

  /** What `insert` accepts. */
  predicate GoodName(name: string)
  {
    name != [] && '=' !in name && '\n' !in name && '\r' !in name && Trim(name) == name
  }

  lemma GoodNameIs(name: string)
    ensures GoodName(name) <==>
      && |name| > 0 && (forall i :: 0 <= i < |name| ==> name[i] != '=' && name[i] != '\n' && name[i] != '\r')
      && !IsSpace(name[0]) && !IsSpace(name[|name| - 1])
  {
    hide Trim, IsSpace;
    if name != [] && Trim(name) == name {
      TrimmedIsSnug(name);
    }
    if Snug(name) {
      SnugIsTrimmed(name);
    }
  }

  /** Replaces the entry of that name, or adds one at the end. */
  function Inserted(entries: seq<Entry>, name: string, bit: u32): (r: seq<Entry>)
    ensures |entries| <= |r| <= |entries| + 1
  {
    if entries == [] then [(name, bit)]
    else if entries[0].0 == name then [(name, bit)] + entries[1..]
    else [entries[0]] + Inserted(entries[1..], name, bit)
  }

  /** Good names, each once. */
  predicate WellFormed(entries: seq<Entry>)
  {
    && (forall k :: 0 <= k < |entries| ==> GoodName(entries[k].0))
    && forall i, j :: 0 <= i < j < |entries| ==> entries[i].0 != entries[j].0
  }

  lemma {:induction false} InsertedAt(entries: seq<Entry>, name: string, bit: u32, k: nat)
    requires k < |entries| && entries[k].0 == name && forall j :: 0 <= j < k ==> entries[j].0 != name
    ensures Inserted(entries, name, bit) == entries[k := (name, bit)]
  {
    if k > 0 {
      InsertedAt(entries[1..], name, bit, k - 1);
    }
  }

  lemma {:induction false} InsertedNew(entries: seq<Entry>, name: string, bit: u32)
    requires forall j :: 0 <= j < |entries| ==> entries[j].0 != name
    ensures Inserted(entries, name, bit) == entries + [(name, bit)]
  {
    if entries != [] {
      InsertedNew(entries[1..], name, bit);
    }
  }

  class TagRegistry {
    var entries: seq<Entry>

    ghost predicate Valid()
      reads this
    {
      WellFormed(entries)
    }

    constructor ()
      ensures Valid() && entries == []
    {
      entries := [];
    }

    /** `insert`: a name that would not survive the text form is refused. */
    method Insert(name: string, bit: u32) returns (ok: bool)
      requires Valid()
      modifies this
      ensures Valid()
      ensures ok <==>
        && |name| > 0 && (forall i :: 0 <= i < |name| ==> name[i] != '=' && name[i] != '\n' && name[i] != '\r')
        && !IsSpace(name[0]) && !IsSpace(name[|name| - 1])
      ensures entries == if ok then Inserted(old(entries), name, bit) else old(entries)
    {
      GoodNameIs(name);
      hide GoodName, IsSpace;
      if !GoodName(name) {
        return false;
      }
      var k := 0;
      while k < |entries| && entries[k].0 != name
        invariant k <= |entries| && forall j :: 0 <= j < k ==> entries[j].0 != name
      {
        k := k + 1;
      }
      if k < |entries| {
        InsertedAt(entries, name, bit, k);
        entries := entries[k := (name, bit)];
      } else {
        InsertedNew(entries, name, bit);
        entries := entries + [(name, bit)];
      }
      return true;
    }

    /** `to_text`: one line an entry. */
    method ToText() returns (text: string)
      ensures text == Text(entries)
    {
      text := [];
      for k := 0 to |entries|
        invariant text == Text(entries[..k])
      {
        assert entries[..k + 1] == entries[..k] + [entries[k]];
        TextSnoc(entries[..k], entries[k]);
        text := text + entries[k].0 + "=" + Decimal(entries[k].1) + "\n";
      }
      assert entries[..|entries|] == entries;
    }
  }

  // ---- The text form -------------------------------------------------------------------

  /** An entry without its line break. */
  function Line(e: Entry): string
  {
    e.0 + "=" + Decimal(e.1)
  }

  function Text(entries: seq<Entry>): string
  {
    if entries == [] then [] else Line(entries[0]) + "\n" + Text(entries[1..])
  }

  lemma {:induction false} TextSnoc(entries: seq<Entry>, e: Entry)
    ensures Text(entries + [e]) == Text(entries) + e.0 + "=" + Decimal(e.1) + "\n"
  {
    hide Decimal;
    if entries == [] {
      assert (entries + [e])[1..] == [];
    } else {
      TextSnoc(entries[1..], e);
      assert (entries + [e])[1..] == entries[1..] + [e];
    }
  }

  /** The part before the first `c`, if there is one. */
  function FirstAt(s: string, c: char): (r: Option<nat>)
    ensures r.Some? ==> r.value < |s| && s[r.value] == c && c !in s[..r.value]
    ensures r.None? ==> c !in s
  {
    if s == [] then None
    else if s[0] == c then Some(0)
    else
      match FirstAt(s[1..], c)
      case None => None
      case Some(k) => assert s[..k + 1] == [s[0]] + s[1..][..k]; Some(k + 1)
  }

  /** A line less the carriage return it may end in. */
  function Chomp(s: string): string
  {
    if s != [] && s[|s| - 1] == '\r' then s[..|s| - 1] else s
  }

  /** `str::lines`. */
  function Lines(text: string): (r: seq<string>)
    decreases |text|
  {
    if text == [] then []
    else
      match FirstAt(text, '\n')
      case None => [text]
      case Some(k) => [Chomp(text[..k])] + Lines(text[k + 1..])
  }

  /** What one line adds; blank and malformed lines add nothing. */
  function LineEntry(line: string): (r: Option<Entry>)
  {
    var l := Trim(line);
    match FirstAt(l, '=')
    case None => None
    case Some(k) =>
      var name := Trim(l[..k]);
      if name == [] then None
      else
        match ParseU32(Trim(l[k + 1..]))
        case None => None
        case Some(bit) => if GoodName(name) then Some((name, bit)) else None
  }

  function ReadLines(lines: seq<string>): (entries: seq<Entry>)
  {
    if lines == [] then []
    else
      var before := ReadLines(lines[..|lines| - 1]);
      match LineEntry(lines[|lines| - 1])
      case None => before
      case Some(e) => Inserted(before, e.0, e.1)
  }

  function Parsed(text: string): seq<Entry>
  {
    ReadLines(Lines(text))
  }

  /** `parse_text`. */
  method ParseText(text: string) returns (reg: TagRegistry)
    ensures fresh(reg) && reg.Valid() && reg.entries == Parsed(text)
  {
    hide GoodName, Trim, ParseU32, IsSpace;
    reg := new TagRegistry();
    var lines := Lines(text);
    for k := 0 to |lines|
      invariant fresh(reg) && reg.Valid() && reg.entries == ReadLines(lines[..k])
    {
      assert lines[..k + 1][..k] == lines[..k] && lines[..k + 1][k] == lines[k];
      var line := Trim(lines[k]);
      var at := FirstAt(line, '=');
      if at.Some? {
        var name := Trim(line[..at.value]);
        var bit := ParseU32(Trim(line[at.value + 1..]));
        if name != [] && bit.Some? {
          GoodNameIs(name);
          var _ := reg.Insert(name, bit.value);
        }
      }
    }
    assert lines[..|lines|] == lines;
  }

  // ---- Round trip ------------------------------------------------------------------------

  lemma {:induction false} FirstAtIs(a: string, c: char, b: string)
    requires c !in a
    ensures FirstAt(a + [c] + b, c) == Some(|a|)
    decreases |a|
  {
    var s := a + [c] + b;
    if a != [] {
      assert s[0] == a[0] && s[1..] == a[1..] + [c] + b;
      FirstAtIs(a[1..], c, b);
    }
  }

  lemma LineShape(e: Entry)
    requires GoodName(e.0)
    ensures '\n' !in Line(e) && Snug(Line(e)) && Line(e)[|Line(e)| - 1] != '\r'
    ensures LineEntry(Line(e)) == Some(e)
  {
    hide Trim, Decimal, ParseU32;
    var number := Decimal(e.1);
    DecimalDigits(e.1);
    NumberRoundTrip(e.1);
    TrimmedIsSnug(e.0);
    var line := Line(e);
    assert number[|number| - 1] in number && number[0] in number;
    assert line[|line| - 1] == number[|number| - 1] && line[0] == e.0[0];
    SnugIsTrimmed(line);
    SnugIsTrimmed(number);
    FirstAtIs(e.0, '=', number);
    assert line[..|e.0|] == e.0 && line[|e.0| + 1..] == number;
  }

  lemma LinesStep(line: string, rest: string)
    requires '\n' !in line && line != [] && line[|line| - 1] != '\r'
    ensures Lines(line + "\n" + rest) == [line] + Lines(rest)
  {
    FirstAtIs(line, '\n', rest);
    var text := line + "\n" + rest;
    assert text[..|line|] == line && text[|line| + 1..] == rest;
  }

  function AllLines(entries: seq<Entry>): (r: seq<string>)
    ensures |r| == |entries|
  {
    seq(|entries|, k requires 0 <= k < |entries| => Line(entries[k]))
  }

  lemma {:induction false} LinesOfText(entries: seq<Entry>)
    requires WellFormed(entries)
    ensures Lines(Text(entries)) == AllLines(entries)
  {
    hide Line, GoodName, Lines;
    if entries == [] {
      NoLines();
    } else {
      LineShape(entries[0]);
      LinesOfText(entries[1..]);
      LinesStep(Line(entries[0]), Text(entries[1..]));
      assert AllLines(entries) == [Line(entries[0])] + AllLines(entries[1..]);
    }
  }

  lemma NoLines()
    ensures Lines([]) == []
  {
  }

  lemma {:induction false} ReadLinesBack(entries: seq<Entry>)
    requires WellFormed(entries)
    ensures ReadLines(AllLines(entries)) == entries
  {
    hide Line, GoodName, LineEntry, Inserted;
    if entries != [] {
      var n := |entries| - 1;
      ReadLinesBack(entries[..n]);
      assert AllLines(entries)[..n] == AllLines(entries[..n]);
      LineShape(entries[n]);
      InsertedNew(entries[..n], entries[n].0, entries[n].1);
      assert entries == entries[..n] + [entries[n]];
    }
  }

  /** Every registry that `insert` can build prints and parses back, order included. */
  lemma TextRoundTrip(entries: seq<Entry>)
    requires WellFormed(entries)
    ensures Parsed(Text(entries)) == entries
  {
    LinesOfText(entries);
    ReadLinesBack(entries);
  }

  // ---- On disk -----------------------------------------------------------------------------

  /** `parse_evio_string`: the text ends at the first NUL. */
  function UpToNul(s: string): string
  {
    match FirstAt(s, '\0')
    case None => s
    case Some(k) => s[..k]
  }

  /** What the reader makes of the stored text. */
  function FromDisk(text: string): seq<Entry>
  {
    Parsed(Trim(UpToNul(text)))
  }

  /** The first entry whose name carries a NUL, or the length when none does. */
  function FirstNul(entries: seq<Entry>): (k: nat)
    ensures k <= |entries|
    ensures forall j :: 0 <= j < k ==> '\0' !in entries[j].0
    ensures k < |entries| ==> '\0' in entries[k].0
  {
    if entries == [] then 0
    else if '\0' in entries[0].0 then 0
    else FirstNul(entries[1..]) + 1
  }

  lemma {:induction false} TextJoin(a: seq<Entry>, b: seq<Entry>)
    ensures Text(a + b) == Text(a) + Text(b)
  {
    hide Line;
    if a == [] {
      assert a + b == b;
    } else {
      TextJoin(a[1..], b);
      assert (a + b)[1..] == a[1..] + b;
      var x, y, z := Line(a[0]) + "\n", Text(a[1..]), Text(b);
      assert x + (y + z) == x + y + z;
    }
  }

  lemma {:induction false} NoNulInText(entries: seq<Entry>)
    requires forall k :: 0 <= k < |entries| ==> '\0' !in entries[k].0
    ensures '\0' !in Text(entries)
  {
    hide Decimal;
    if entries != [] {
      NoNulInText(entries[1..]);
      DecimalDigits(entries[0].1);
    }
  }

  /** Where the stored text is cut. */
  lemma {:induction false} CutAtNul(entries: seq<Entry>)
    ensures
      var k := FirstNul(entries);
      UpToNul(Text(entries)) == Text(entries[..k]) + if k < |entries| then UpToNul(entries[k].0) else []
  {
    hide Text, FirstAt;
    var k := FirstNul(entries);
    NoNulInText(entries[..k]);
    if k < |entries| {
      assert entries == entries[..k] + entries[k..];
      TextJoin(entries[..k], entries[k..]);
      TextHead(entries[k..]);
      CutInside(Text(entries[..k]), entries[k].0, "=" + Decimal(entries[k].1) + "\n" + Text(entries[k..][1..]),
        Text(entries));
    } else {
      assert entries[..k] == entries;
    }
  }

  lemma {:induction false} CutInside(before: string, name: string, rest: string, text: string)
    requires '\0' !in before && '\0' in name && text == before + (name + rest)
    ensures UpToNul(text) == before + UpToNul(name)
  {
    var j := FirstAt(name, '\0').value;
    hide FirstAt;
    var head, tail := before + name[..j], name[j + 1..] + rest;
    assert name == name[..j] + ['\0'] + name[j + 1..];
    assert text == head + ['\0'] + tail;
    FirstAtIs(head, '\0', tail);
    assert text[..|head|] == head;
  }

  lemma {:induction false} TextHead(entries: seq<Entry>)
    requires entries != []
    ensures Text(entries) == entries[0].0 + ("=" + Decimal(entries[0].1) + "\n" + Text(entries[1..]))
  {
    hide Decimal;
  }

  lemma {:induction false} TrimEndAfter(a: string, p: string)
    requires p != [] && !IsSpace(p[0])
    ensures TrimEnd(a + p) == a + TrimEnd(p)
    ensures TrimEnd(p) != []
    decreases |p|
  {
    hide IsSpace;
    var n := |p| - 1;
    assert (a + p)[|a + p| - 1] == p[n];
    if IsSpace(p[n]) {
      TrimEndAfter(a, p[..n]);
      assert (a + p)[..|a + p| - 1] == a + p[..n];
    }
  }

  lemma {:induction false} TextEnds(entries: seq<Entry>)
    requires WellFormed(entries) && entries != []
    ensures
      var text := Text(entries);
      && text != [] && !IsSpace(text[0]) && text[|text| - 1] == '\n'
      && |text| > 1 && !IsSpace(text[|text| - 2])
      && text[..|text| - 1] == Text(entries[..|entries| - 1]) + Line(entries[|entries| - 1])
  {
    hide Decimal, Trim, Text, IsSpace;
    var n := |entries| - 1;
    assert GoodName(entries[0].0) && GoodName(entries[n].0);
    TextHead(entries);
    TrimmedIsSnug(entries[0].0);
    LineShape(entries[n]);
    assert entries == entries[..n] + [entries[n]];
    TextSnoc(entries[..n], entries[n]);
    var text, line := Text(entries), Line(entries[n]);
    assert text == Text(entries[..n]) + line + "\n";
    assert text[|text| - 2] == line[|line| - 1];
  }

  /** Lines of whole entries, and what is left of one cut short. */
  lemma {:induction false} LinesWithTail(entries: seq<Entry>, q: string)
    requires WellFormed(entries) && q != [] && '\n' !in q
    ensures Lines(Text(entries) + q) == AllLines(entries) + [q]
  {
    hide Line, GoodName, Lines;
    if entries == [] {
      assert Text(entries) + q == q;
      OneLine(q);
    } else {
      LineShape(entries[0]);
      LinesWithTail(entries[1..], q);
      LinesStep(Line(entries[0]), Text(entries[1..]) + q);
      assert Text(entries) + q == Line(entries[0]) + "\n" + (Text(entries[1..]) + q);
      assert AllLines(entries) == [Line(entries[0])] + AllLines(entries[1..]);
    }
  }

  lemma OneLine(q: string)
    requires q != [] && '\n' !in q
    ensures Lines(q) == [q]
  {
  }

  lemma PrefixWellFormed(entries: seq<Entry>, k: nat)
    requires WellFormed(entries) && k <= |entries|
    ensures WellFormed(entries[..k])
  {
  }

  /** Trimming the whole text costs it only its last line break. */
  lemma {:induction false} TrimmedTextParses(entries: seq<Entry>)
    requires WellFormed(entries)
    ensures Parsed(Trim(Text(entries))) == entries
  {
    hide Line, GoodName, Lines, Inserted, LineEntry, IsSpace;
    if entries == [] {
      NoLines();
    } else {
      var n, text := |entries| - 1, Text(entries);
      TextEnds(entries);
      var cut := text[..|text| - 1];
      NewlineIsSpace();
      assert TrimStart(text) == text && TrimEnd(text) == TrimEnd(cut) == cut;
      LineShape(entries[n]);
      PrefixWellFormed(entries, n);
      LinesWithTail(entries[..n], Line(entries[n]));
      assert AllLines(entries) == AllLines(entries[..n]) + [Line(entries[n])];
      ReadLinesBack(entries);
    }
  }

  lemma NewlineIsSpace()
    ensures IsSpace('\n')
  {
  }

  /** A name cut short has no '=' and adds nothing. */
  lemma {:induction false} CutNameAddsNothing(entries: seq<Entry>, part: string)
    requires WellFormed(entries) && part != [] && !IsSpace(part[0]) && '\n' !in part && '=' !in part
    ensures Parsed(Trim(Text(entries) + part)) == entries
  {
    hide Line, GoodName, Lines, Inserted, IsSpace;
    var text := Text(entries) + part;
    TrimEndAfter(Text(entries), part);
    var q := TrimEnd(part);
    if entries != [] {
      TextEnds(entries);
      assert text[0] == Text(entries)[0];
    }
    assert TrimStart(text) == text;
    assert Trim(text) == Text(entries) + q;
    assert q == part[..|q|];
    LinesWithTail(entries, q);
    ReadLinesBack(entries);
    NoEquals(q);
    assert (AllLines(entries) + [q])[..|entries|] == AllLines(entries);
  }

  lemma NoEquals(q: string)
    requires '=' !in q
    ensures LineEntry(q) == None
  {
    hide IsSpace;
    TrimIsPart(q);
    assert '=' !in Trim(q);
  }

  lemma {:induction false} TrimStartIsPart(s: string)
    ensures forall c :: c in TrimStart(s) ==> c in s
    decreases |s|
  {
    hide IsSpace;
    if s != [] && IsSpace(s[0]) {
      TrimStartIsPart(s[1..]);
    }
  }

  lemma {:induction false} TrimEndIsPart(s: string)
    ensures forall c :: c in TrimEnd(s) ==> c in s
    decreases |s|
  {
    hide IsSpace;
    if s != [] && IsSpace(s[|s| - 1]) {
      TrimEndIsPart(s[..|s| - 1]);
    }
  }

  lemma TrimIsPart(s: string)
    ensures forall c :: c in Trim(s) ==> c in s
  {
    hide TrimStart, TrimEnd;
    TrimStartIsPart(s);
    TrimEndIsPart(TrimStart(s));
  }

  /** On disk every entry comes back up to the first name with a NUL in it, and none after. */
  lemma {:induction false} DiskRoundTrip(entries: seq<Entry>)
    requires WellFormed(entries)
    ensures FromDisk(Text(entries)) == entries[..FirstNul(entries)]
    ensures FromDisk(Text(entries)) == entries <==> forall k :: 0 <= k < |entries| ==> '\0' !in entries[k].0
  {
    hide Text, Trim, Parsed, IsSpace;
    var k := FirstNul(entries);
    CutAtNul(entries);
    PrefixWellFormed(entries, k);
    if k == |entries| {
      assert Text(entries[..k]) + [] == Text(entries[..k]);
      TrimmedTextParses(entries[..k]);
    } else {
      var name := entries[k].0;
      var part := UpToNul(name);
      assert GoodName(name);
      TrimmedIsSnug(name);
      if part == [] {
        assert Text(entries[..k]) + [] == Text(entries[..k]);
        TrimmedTextParses(entries[..k]);
      } else {
        CutNameAddsNothing(entries[..k], part);
      }
      assert |entries[..k]| < |entries|;
    }
  }
}
