/** The list of open ports as the driver prints it for a parameter, and parses it back. */
module PortList {
  import opened Options
  import opened Arithmetic

  const MAX_PORTS := 1024
  const MAX_PORT := 65535

  type Port = p: int | 0 <= p <= 65535

  // ---------------------------------------------------------------------------------------------
  // Numbers
  // ---------------------------------------------------------------------------------------------

  predicate IsDigit(c: char) { '0' <= c <= '9' }

  function DigitOf(c: char): (d: nat)
    requires IsDigit(c)
    ensures d < 10
  {
    c as int - '0' as int
  }

  function CharOf(d: nat): (c: char)
    requires d < 10
    ensures IsDigit(c) && DigitOf(c) == d
  {
    ('0' as int + d) as char
  }

  predicate AllDigits(s: string) { forall k :: 0 <= k < |s| ==> IsDigit(s[k]) }

  /** The %u conversion. */
  function Decimal(n: nat): (s: string)
    ensures |s| > 0 && AllDigits(s)
  {
    if n < 10 then [CharOf(n)] else Decimal(n / 10) + [CharOf(n % 10)]
  }

  function Value(digits: string): (n: nat)
    requires AllDigits(digits)
  {
    if digits == "" then 0 else 10 * Value(digits[..|digits| - 1]) + DigitOf(digits[|digits| - 1])
  }

  /** Without an optional plus sign and an optional line end. */
  function Stripped(token: string): (s: string)
    ensures |s| <= |token|
  {
    var s := if token != "" && token[0] == '+' then token[1..] else token;
    if s != "" && s[|s| - 1] == '\n' then s[..|s| - 1] else s
  }

  /** kstrtoul in base 10. */
  function Number(token: string): (n: Option<nat>) {
    var digits := Stripped(token);
    if digits != "" && AllDigits(digits) then Some(Value(digits)) else None
  }

  lemma {:induction false} ValueOfDecimal(n: nat)
    ensures Value(Decimal(n)) == n
  {
    if n >= 10 {
      ValueOfDecimal(n / 10);
      assert Decimal(n)[..|Decimal(n)| - 1] == Decimal(n / 10);
    }
  }

  lemma NumberOfDecimal(n: nat)
    ensures Number(Decimal(n)) == Some(n)
  {
    var s := Decimal(n);
    assert IsDigit(s[0]) && IsDigit(s[|s| - 1]);
    ValueOfDecimal(n);
  }

  /** No string of digits for a number is shorter than the printed one. */
  lemma {:induction false} DecimalIsShortest(digits: string)
    requires digits != "" && AllDigits(digits)
    ensures |Decimal(Value(digits))| <= |digits|
  {
    var rest := digits[..|digits| - 1];
    if rest != "" {
      DecimalIsShortest(rest);
      assert Value(digits) / 10 == Value(rest);
    } else {
      assert Value(digits) == DigitOf(digits[0]);
    }
  }

  lemma NumberIsNotShort(token: string)
    requires Number(token).Some?
    ensures |Decimal(Number(token).value)| <= |token|
  {
    DecimalIsShortest(Stripped(token));
  }

  // ---------------------------------------------------------------------------------------------
  // Lists
  // ---------------------------------------------------------------------------------------------

  function Render(ports: seq<Port>): (s: string) {
    if ports == [] then ""
    else if |ports| == 1 then Decimal(ports[0])
    else Render(ports[..|ports| - 1]) + "," + Decimal(ports[|ports| - 1])
  }

  /** The end of the token that starts at `cur`. */
  function TokenEnd(s: string, cur: nat): (end: nat)
    requires cur <= |s|
    ensures cur <= end <= |s| && (end < |s| ==> s[end] == ',')
    ensures forall k :: cur <= k < end ==> s[k] != ','
    decreases |s| - cur
  {
    if cur == |s| || s[cur] == ',' then cur else TokenEnd(s, cur + 1)
  }

  /** Where the k-th token starts; past the end of the string if there are no more. */
  function Cursor(s: string, k: nat): (cur: nat) {
    if k == 0 then 0
    else
      var before := Cursor(s, k - 1);
      if before <= |s| then TokenEnd(s, before) + 1 else before
  }

  /** The port the k-th token names, if there is one and it names one. */
  function PortAt(s: string, k: nat): (p: Option<Port>) {
    var cur := Cursor(s, k);
    if cur > |s| then None
    else
      var v := Number(s[cur..TokenEnd(s, cur)]);
      if v.Some? && v.value <= MAX_PORT then Some(v.value) else None
  }

  /** The string starts with tokens that name these ports. */
  ghost predicate Names(s: string, ports: seq<Port>) {
    forall k {:trigger ports[k]} :: 0 <= k < |ports| ==> PortAt(s, k) == Some(ports[k])
  }

  /** The parser takes the string and stores these ports: all the tokens, or as many as there is room for. */
  ghost predicate ParsesTo(s: string, ports: seq<Port>) {
    |ports| <= MAX_PORTS && Names(s, ports) && (|ports| == MAX_PORTS || Cursor(s, |ports|) > |s|)
  }

  /** The parser refuses the string, after it stored these ports. */
  ghost predicate FailsAfter(s: string, ports: seq<Port>) {
    && |ports| < MAX_PORTS && Names(s, ports)
    && Cursor(s, |ports|) <= |s| && PortAt(s, |ports|).None?
  }

  /** A string is taken in one way or refused, never both. */
  lemma ParseIsUnique(s: string, a: seq<Port>, b: seq<Port>)
    requires ParsesTo(s, a) || FailsAfter(s, a)
    requires ParsesTo(s, b) || FailsAfter(s, b)
    ensures a == b && (ParsesTo(s, a) <==> !FailsAfter(s, b))
  {
    NoShorterParse(s, a, b);
    NoShorterParse(s, b, a);
    forall k | 0 <= k < |a| ensures a[k] == b[k] {
      assert PortAt(s, k) == Some(a[k]);
      assert PortAt(s, k) == Some(b[k]);
    }
  }

  /** Where one reading of the string stops, no other goes on. */
  lemma NoShorterParse(s: string, a: seq<Port>, b: seq<Port>)
    requires ParsesTo(s, a) || FailsAfter(s, a)
    requires Names(s, b) && |b| <= MAX_PORTS
    ensures |b| <= |a|
  {
    if |a| < |b| {
      NamedIsThere(s, b, |a|);
      assert false;
    }
  }

  lemma NamedIsThere(s: string, ports: seq<Port>, k: nat)
    requires Names(s, ports) && k < |ports|
    ensures PortAt(s, k) == Some(ports[k]) && Cursor(s, k) <= |s|
  {
    assert PortAt(s, k) == Some(ports[k]);
  }

  lemma TokenEndIs(s: string, cur: nat, end: nat)
    requires cur <= end <= |s| && (end < |s| ==> s[end] == ',') && forall k :: cur <= k < end ==> s[k] != ','
    ensures TokenEnd(s, cur) == end
  {
    var m := TokenEnd(s, cur);
    assert m < |s| ==> s[m] == ',';
  }

  lemma {:induction false} RenderPrefix(ports: seq<Port>, k: nat)
    requires k <= |ports|
    ensures Render(ports[..k]) <= Render(ports)
    ensures 0 < k < |ports| ==> |Render(ports[..k])| < |Render(ports)| && Render(ports)[|Render(ports[..k])|] == ','
  {
    var n := |ports| - 1;
    if k < n {
      RenderPrefix(ports[..n], k);
      assert ports[..n][..k] == ports[..k];
    } else {
      assert ports[..|ports|] == ports;
    }
  }

  /** Where the k-th printed port starts. */
  function Offset(ports: seq<Port>, k: nat): nat
    requires k <= |ports|
  {
    if k == 0 then 0 else |Render(ports[..k])| + 1
  }

  lemma RenderStep(ports: seq<Port>, k: nat)
    requires k < |ports|
    ensures var s, at := Render(ports), Offset(ports, k);
            var end := at + |Decimal(ports[k])|;
            && end == |Render(ports[..k + 1])| <= |s| && s[at..end] == Decimal(ports[k])
            && (end < |s| ==> s[end] == ',')
  {
    var t := Render(ports[..k + 1]);
    RenderPrefix(ports, k + 1);
    assert ports[..k + 1][..k] == ports[..k];
    assert t[Offset(ports, k)..] == Decimal(ports[k]);
    assert Render(ports)[..|t|] == t;
    assert Render(ports)[..|t|][Offset(ports, k)..] == Render(ports)[Offset(ports, k)..|t|];
    assert k + 1 == |ports| ==> ports[..k + 1] == ports;
  }

  lemma WholeList(ports: seq<Port>)
    ensures ports[..|ports|] == ports
  {
  }

  /** A printed port before a comma or the end is a token. */
  lemma PrintedToken(s: string, cur: nat, end: nat, port: Port)
    requires cur <= end <= |s| && s[cur..end] == Decimal(port) && (end < |s| ==> s[end] == ',')
    ensures TokenEnd(s, cur) == end && Number(s[cur..end]) == Some(port)
  {
    forall k | cur <= k < end ensures s[k] != ',' {
      assert IsDigit(s[cur..end][k - cur]);
    }
    TokenEndIs(s, cur, end);
    NumberOfDecimal(port);
  }

  lemma TokenOfRender(ports: seq<Port>, k: nat)
    requires k < |ports| && Cursor(Render(ports), k) == Offset(ports, k)
    ensures var s := Render(ports);
            && PortAt(s, k) == Some(ports[k])
            && TokenEnd(s, Cursor(s, k)) + 1 == Offset(ports, k + 1)
  {
    var at := Offset(ports, k);
    RenderStep(ports, k);
    PrintedToken(Render(ports), at, at + |Decimal(ports[k])|, ports[k]);
  }

  /** The tokens of a printed list start where its ports do. */
  lemma {:induction false} TokensOfRender(ports: seq<Port>, k: nat)
    requires k <= |ports|
    ensures Cursor(Render(ports), k) == Offset(ports, k)
  {
    if k != 0 {
      TokensOfRender(ports, k - 1);
      TokenOfRender(ports, k - 1);
    }
  }

  lemma RenderParses(ports: seq<Port>)
    requires 0 < |ports| <= MAX_PORTS
    ensures ParsesTo(Render(ports), ports)
  {
    forall k | 0 <= k < |ports|
      ensures PortAt(Render(ports), k) == Some(ports[k])
    {
      TokensOfRender(ports, k);
      TokenOfRender(ports, k);
    }
    TokensOfRender(ports, |ports|);
    WholeList(ports);
  }

  /** A token that names a port is at least as long as the port printed. */
  lemma TokenTakesRoom(s: string, k: nat)
    requires PortAt(s, k).Some?
    ensures Cursor(s, k) + |Decimal(PortAt(s, k).value)| + 1 <= Cursor(s, k + 1) <= |s| + 1
  {
    NumberIsNotShort(s[Cursor(s, k)..TokenEnd(s, Cursor(s, k))]);
  }

  /** Tokens that name a list take at least as much room as the list printed. */
  lemma {:induction false} NamesAreNotShort(s: string, ports: seq<Port>, k: nat)
    requires Names(s, ports) && k <= |ports|
    ensures Offset(ports, k) <= Cursor(s, k) <= |s| + 1
  {
    if k != 0 {
      NamesAreNotShort(s, ports, k - 1);
      NamedIsThere(s, ports, k - 1);
      TokenTakesRoom(s, k - 1);
      RenderStep(ports, k - 1);
    }
  }

  lemma NamesNext(s: string, ports: seq<Port>, port: Port)
    requires Names(s, ports) && PortAt(s, |ports|) == Some(port)
    ensures Names(s, ports + [port])
  {
    var more := ports + [port];
    forall k | 0 <= k < |more|
      ensures PortAt(s, k) == Some(more[k])
    {
      assert k < |ports| ==> more[k] == ports[k];
    }
  }

  /** What a buffer of `cap` characters takes of the printed list: one is for the end of the string. */
  function Printed(ports: seq<Port>, cap: nat): (s: string)
    requires 0 < cap
  {
    Render(ports)[..Min(|Render(ports)|, cap - 1)]
  }

  /** The parser undoes the printer exactly when there is a port to print and the list fits the buffer. */
  lemma ParserUndoesPrinterIff(ports: seq<Port>, cap: nat)
    requires 0 < cap && |ports| <= MAX_PORTS
    ensures ParsesTo(Printed(ports, cap), ports) <==> 0 < |ports| && |Render(ports)| < cap
  {
    var s := Printed(ports, cap);
    if ports != [] && |Render(ports)| < cap {
      assert s == Render(ports);
      RenderParses(ports);
    } else if ParsesTo(s, ports) && ports != [] {
      NamesAreNotShort(s, ports, |ports|);
      WholeList(ports);
    }
  }

  // ---------------------------------------------------------------------------------------------
  // The driver's loops
  // ---------------------------------------------------------------------------------------------

  class OpenPorts {
    var num: nat
    const list: array<Port>

    ghost predicate Valid()
      reads this, list
    {
      num <= list.Length == MAX_PORTS
    }

    constructor ()
      ensures Valid() && num == 0 && fresh(list)
    {
      num := 0;
      list := new Port[MAX_PORTS](_ => 0);
    }

    /** The first entries are `ports`, the others those of `was`. */
    ghost predicate Holds(ports: seq<Port>, was: seq<Port>)
      reads list
    {
      && |ports| <= |was| == list.Length
      && forall k :: 0 <= k < list.Length ==> list[k] == if k < |ports| then ports[k] else was[k]
    }

    /** strsep: the end of the token that starts at `cur`. */
    static method Separate(str: string, cur: nat) returns (end: nat)
      requires cur <= |str|
      ensures end == TokenEnd(str, cur)
    {
      end := cur;
      while end < |str| && str[end] != ','
        invariant cur <= end <= |str|
        invariant forall k :: cur <= k < end ==> str[k] != ','
      {
        end := end + 1;
      }
      TokenEndIs(str, cur, end);
    }

    /**
     The token loop. A refused token leaves the count as it was, though the ports before it are stored;
     entries behind those keep their values.
     */
    method ParseOpenSockets(str: string) returns (ok: bool, ghost ports: seq<Port>)
      requires Valid()
      modifies `num, list
      ensures Valid()
      ensures if ok then ParsesTo(str, ports) && num == |ports| else FailsAfter(str, ports) && num == old(num)
      ensures Holds(ports, old(list[..]))
    {
      var cur, i := 0, 0;
      ports := [];
      while cur <= |str| && i < MAX_PORTS
        invariant i == |ports| <= MAX_PORTS && num == old(num) && cur == Cursor(str, i)
        invariant Names(str, ports) && Holds(ports, old(list[..]))
        decreases MAX_PORTS - i
      {
        var end := Separate(str, cur);
        var port := Number(str[cur..end]);
        if port.None? || port.value > MAX_PORT {
          return false, ports;
        }
        NamesNext(str, ports, port.value);
        list[i] := port.value;
        ports := ports + [port.value as Port];
        i := i + 1;
        cur := end + 1;
      }
      num := i;
      ok := true;
    }

    /** The print loop, into a buffer of `cap` characters. */
    method OutputOpenSockets(cap: nat) returns (str: string)
      requires Valid() && 0 < cap
      ensures str == Printed(list[..num], cap)
    {
      str := "";
      var i := 0;
      while i < num
        invariant i <= num
        invariant str == Printed(list[..i], cap)
      {
        var piece := (if i > 0 then "," else "") + Decimal(list[i]);
        var room := cap - |str|;
        assert list[..i + 1] == list[..i] + [list[i]];
        PrintNext(list[..i], list[i], cap);
        str := str + piece[..if |piece| < room then |piece| else room - 1];
        i := i + 1;
      }
    }
  }

  /** One more scnprintf. */
  lemma PrintNext(ports: seq<Port>, port: Port, cap: nat)
    requires 0 < cap
    ensures var piece := (if ports != [] then "," else "") + Decimal(port);
            var room := cap - |Printed(ports, cap)|;
            && 0 < room
            && Printed(ports + [port], cap)
               == Printed(ports, cap) + piece[..if |piece| < room then |piece| else room - 1]
  {
    var piece := (if ports != [] then "," else "") + Decimal(port);
    assert (ports + [port])[..|ports|] == ports;
    assert Render(ports + [port]) == Render(ports) + piece;
  }
}
