/**
 The tsserve.* label vocabulary (labels/labels.go), and the form in which the Lambda watcher
 compares capability lists (lambda/watcher.go): sorted and joined with commas.
 */
module Labels {
  datatype ServiceDef = ServiceDef(service: string, port: nat, network: string, scheme: string, caps: seq<string>)

  datatype ParseError = Disabled | Invalid(field: string)

  datatype Parsed = Ok(def: ServiceDef) | Err(error: ParseError)

  const ENABLE := "tsserve.enable"
  const SERVICE := "tsserve.service"
  const PORT := "tsserve.port"
  const NETWORK := "tsserve.network"
  const SCHEME := "tsserve.scheme"
  const CAPS := "tsserve.caps"

  /** A missing key reads as the empty string. */
  function Get(labels: map<string, string>, key: string): string {
    if key in labels then labels[key] else ""
  }

  predicate ValidService(svc: string) {
    svc != "" && "svc:" <= svc
  }

  predicate IsDigit(c: char) {
    '0' <= c <= '9'
  }

  /** The value of a string of decimal digits; -1 for anything else. */
  function Decimal(s: string): (v: int)
    ensures v >= -1
    ensures v >= 0 ==> s != [] && forall c :: c in s ==> IsDigit(c)
  {
    if s == [] then -1
    else
      var last := s[|s| - 1];
      if !IsDigit(last) then -1
      else if |s| == 1 then last as int - '0' as int
      else
        var rest := Decimal(s[..|s| - 1]);
        if rest < 0 then -1
        else
          assert forall c :: c in s ==> c in s[..|s| - 1] || c == last by {
            assert s == s[..|s| - 1] + [last];
          }
          10 * rest + (last as int - '0' as int)
  }

  predicate ValidPort(text: string) {
    0 < Decimal(text) <= 0xFFFF
  }

  /** A number in decimal, as strconv.Itoa writes it. */
  function Itoa(n: nat): (s: string)
    ensures s != ""
  {
    if n < 10 then ['0' + n as char] else Itoa(n / 10) + ['0' + (n % 10) as char]
  }

  /** Decimal reads what Itoa writes. */
  lemma {:induction false} DecimalItoa(n: nat)
    ensures Decimal(Itoa(n)) == n
  {
    if n >= 10 {
      DecimalItoa(n / 10);
      var s := Itoa(n);
      assert s[..|s| - 1] == Itoa(n / 10);
    }
  }

  /** Leading zeros do not matter. */
  lemma {:induction false} DecimalZero(s: string)
    requires Decimal(s) >= 0
    ensures Decimal("0" + s) == Decimal(s)
  {
    var t := "0" + s;
    assert t[|t| - 1] == s[|s| - 1] && t[..|t| - 1] == "0" + s[..|s| - 1];
    if |s| > 1 {
      DecimalZero(s[..|s| - 1]);
    } else {
      assert s[..|s| - 1] == "" && "0" + "" == "0" && Decimal("0") == 0;
    }
  }

  /** `Parse`. A definition is returned exactly for an opted-in container whose service, port and
      scheme are valid; the scheme is then http or https and the port is one that fits 16 bits. */
  function Parse(labels: map<string, string>): (r: Parsed)
    ensures r == Err(Disabled) <==> Get(labels, ENABLE) != "true"
    ensures r.Ok? <==>
      && Get(labels, ENABLE) == "true" && ValidService(Get(labels, SERVICE))
      && ValidPort(Get(labels, PORT)) && Get(labels, SCHEME) in {"", "http", "https"}
    ensures r.Ok? ==> r.def.scheme == "http" || r.def.scheme == "https"
    ensures r.Ok? ==> "svc:" <= r.def.service && 0 < r.def.port <= 0xFFFF && r.def.network != ""
  {
    if Get(labels, ENABLE) != "true" then Err(Disabled)
    else if !ValidService(Get(labels, SERVICE)) then Err(Invalid(SERVICE))
    else if Get(labels, PORT) == "" then Err(Invalid(PORT))
    else if !ValidPort(Get(labels, PORT)) then Err(Invalid(PORT))
    else
      var network := if Get(labels, NETWORK) == "" then "bridge" else Get(labels, NETWORK);
      var scheme := if Get(labels, SCHEME) == "" then "http" else Get(labels, SCHEME);
      if scheme != "http" && scheme != "https" then Err(Invalid(SCHEME))
      else Ok(ServiceDef(Get(labels, SERVICE), Decimal(Get(labels, PORT)), network, scheme,
                         ParseCaps(Get(labels, CAPS))))
  }

  /** What is accepted, and what each field is, label by label: an absent network is the bridge, an
      absent scheme is http, and the rest is as labelled. */
  lemma ParsedAsLabelled(labels: map<string, string>)
    ensures Parse(labels).Ok? <==>
      && Get(labels, "tsserve.enable") == "true" && "svc:" <= Get(labels, "tsserve.service")
      && 0 < Decimal(Get(labels, "tsserve.port")) <= 65535
      && Get(labels, "tsserve.scheme") in {"", "http", "https"}
    ensures Parse(labels).Ok? ==>
      var def := Parse(labels).def;
      && def.service == Get(labels, "tsserve.service") && def.port == Decimal(Get(labels, "tsserve.port"))
      && def.caps == ParseCaps(Get(labels, "tsserve.caps"))
      && def.network == (if Get(labels, "tsserve.network") == "" then "bridge" else Get(labels, "tsserve.network"))
      && def.scheme == (if Get(labels, "tsserve.scheme") == "" then "http" else Get(labels, "tsserve.scheme"))
  {
  }

  /** A definition that labels can express. */
  predicate Expressible(def: ServiceDef) {
    && "svc:" <= def.service && 0 < def.port <= 65535 && def.network != ""
    && (def.scheme == "http" || def.scheme == "https")
    && (forall c :: c in def.caps ==> CapName(c))
  }

  /** These labels say this definition. */
  predicate Labelled(labels: map<string, string>, def: ServiceDef) {
    && Get(labels, "tsserve.enable") == "true" && Get(labels, "tsserve.service") == def.service
    && Get(labels, "tsserve.port") == Itoa(def.port) && Get(labels, "tsserve.network") == def.network
    && Get(labels, "tsserve.scheme") == def.scheme && Get(labels, "tsserve.caps") == Join(def.caps)
  }

  /** Round trip: labels written out from a definition parse to it. */
  lemma ParseLabelled(labels: map<string, string>, def: ServiceDef)
    requires Expressible(def) && Labelled(labels, def)
    ensures Parse(labels) == Ok(def)
  {
    DecimalItoa(def.port);
    ParseJoined(def.caps);
  }

  // ------------------------------------------------------------------ capability lists

  /** White space as the Unicode property has it. */
  predicate IsSpace(c: char) {
    var n := c as int;
    || 0x09 <= n <= 0x0D || n == 0x20 || n == 0x85 || n == 0xA0 || n == 0x1680
    || 0x2000 <= n <= 0x200A || n == 0x2028 || n == 0x2029 || n == 0x202F || n == 0x205F || n == 0x3000
  }

  function TrimLeft(s: string): (t: string)
    ensures t != "" ==> !IsSpace(t[0])
    ensures forall c :: c in t ==> c in s
    ensures s != "" && !IsSpace(s[0]) ==> t == s
  {
    if s != "" && IsSpace(s[0]) then TrimLeft(s[1..]) else s
  }

  function TrimRight(s: string): (t: string)
    ensures t <= s
    ensures t != "" ==> !IsSpace(t[|t| - 1])
    ensures s != "" && !IsSpace(s[|s| - 1]) ==> t == s
  {
    if s != "" && IsSpace(s[|s| - 1]) then TrimRight(s[..|s| - 1]) else s
  }

  function TrimSpace(s: string): (t: string)
    ensures t != "" ==> !IsSpace(t[0]) && !IsSpace(t[|t| - 1])
    ensures forall c :: c in t ==> c in s
  {
    TrimRight(TrimLeft(s))
  }

  predicate Blank(s: string) {
    forall c :: c in s ==> IsSpace(c)
  }

  lemma {:induction false} TrimLeftStrips(l: string, s: string)
    requires Blank(l) && s != "" && !IsSpace(s[0])
    ensures TrimLeft(l + s) == s
  {
    if l != "" {
      assert (l + s)[1..] == l[1..] + s && (l + s)[0] == l[0];
      assert l[0] in l;
      TrimLeftStrips(l[1..], s);
    } else {
      assert l + s == s;
    }
  }

  lemma {:induction false} TrimRightStrips(s: string, r: string)
    requires Blank(r) && s != "" && !IsSpace(s[|s| - 1])
    ensures TrimRight(s + r) == s
  {
    if r != "" {
      var t := s + r;
      assert t[..|t| - 1] == s + r[..|r| - 1] && t[|t| - 1] == r[|r| - 1];
      assert r[|r| - 1] in r;
      TrimRightStrips(s, r[..|r| - 1]);
    } else {
      assert s + r == s;
    }
  }

  /** Trimming takes exactly the space around a text that neither begins nor ends with space. */
  lemma TrimSpaceStrips(l: string, s: string, r: string)
    requires Blank(l) && Blank(r) && s != "" && !IsSpace(s[0]) && !IsSpace(s[|s| - 1])
    ensures TrimSpace(l + s + r) == s
  {
    assert l + s + r == l + (s + r) && (s + r)[0] == s[0];
    TrimLeftStrips(l, s + r);
    TrimRightStrips(s, r);
  }

  /** The pieces between the commas; there is always one. */
  function Split(s: string): (pieces: seq<string>)
    ensures pieces != []
    ensures forall p :: p in pieces ==> ',' !in p
  {
    if s == "" then [""]
    else
      var rest := Split(s[1..]);
      assert forall p :: p in rest[1..] ==> p in rest;
      if s[0] == ',' then [""] + rest
      else
        assert rest[0] in rest;
        [[s[0]] + rest[0]] + rest[1..]
  }

  /** A capability name as it can come out of a label: non-empty, trimmed, without a comma. */
  predicate CapName(c: string) {
    c != "" && ',' !in c && !IsSpace(c[0]) && !IsSpace(c[|c| - 1])
  }

  function Kept(pieces: seq<string>): (caps: seq<string>)
    requires forall p :: p in pieces ==> ',' !in p
    ensures forall c :: c in caps ==> CapName(c)
  {
    if pieces == [] then []
    else
      var last := |pieces| - 1;
      assert pieces[last] in pieces;
      var c := TrimSpace(pieces[last]);
      var caps := Kept(pieces[..last]);
      if c != "" then
        assert forall d :: d in caps + [c] ==> d in caps || d == c;
        caps + [c]
      else caps
  }

  function ParseCaps(raw: string): (caps: seq<string>)
    ensures forall c :: c in caps ==> CapName(c)
  {
    Kept(Split(raw))
  }

  /** `ParseCaps` as the loop it is. */
  method ParseCapsLoop(raw: string) returns (caps: seq<string>)
    ensures caps == ParseCaps(raw)
  {
    caps := [];
    var pieces := Split(raw);
    for i := 0 to |pieces|
      invariant caps == Kept(pieces[..i])
    {
      assert pieces[..i + 1][..i] == pieces[..i];
      var c := TrimSpace(pieces[i]);
      if c != "" {
        caps := caps + [c];
      }
    }
    assert pieces[..|pieces|] == pieces;
  }

  function Join(parts: seq<string>): string {
    if parts == [] then ""
    else if |parts| == 1 then parts[0]
    else parts[0] + "," + Join(parts[1..])
  }

  lemma {:induction false} SplitPrefix(p: string, s: string)
    requires ',' !in p
    ensures Split(p + s) == [p + Split(s)[0]] + Split(s)[1..]
  {
    if p == "" {
      assert p + s == s && p + Split(s)[0] == Split(s)[0];
      assert [Split(s)[0]] + Split(s)[1..] == Split(s);
    } else {
      SplitPrefix(p[1..], s);
      assert (p + s)[1..] == p[1..] + s;
      assert p[0] in p && (p + s)[0] == p[0];
      var rest := Split(p[1..] + s);
      assert rest[0] == p[1..] + Split(s)[0] && rest[1..] == Split(s)[1..];
      assert Split(p + s) == [[p[0]] + rest[0]] + rest[1..];
      assert [p[0]] + (p[1..] + Split(s)[0]) == p + Split(s)[0];
    }
  }

  /** Splitting undoes joining, for parts without commas. */
  lemma {:induction false} SplitJoin(parts: seq<string>)
    requires parts != [] && forall p :: p in parts ==> ',' !in p
    ensures Split(Join(parts)) == parts
  {
    assert parts[0] in parts;
    if |parts| == 1 {
      SplitPrefix(parts[0], "");
      assert parts[0] + "" == parts[0];
      assert [parts[0]] == parts;
    } else {
      SplitJoin(parts[1..]);
      var rest := "," + Join(parts[1..]);
      assert rest[1..] == Join(parts[1..]);
      SplitPrefix(parts[0], rest);
      assert parts[0] + "," + Join(parts[1..]) == parts[0] + rest;
      assert Split(rest) == [""] + parts[1..];
      assert parts[0] + "" == parts[0];
      assert [parts[0]] + parts[1..] == parts;
    }
  }

  lemma {:induction false} KeptNames(caps: seq<string>)
    requires forall c :: c in caps ==> CapName(c)
    ensures forall c :: c in caps ==> ',' !in c
    ensures Kept(caps) == caps
  {
    if caps != [] {
      var last := |caps| - 1;
      KeptNames(caps[..last]);
      assert caps[last] in caps;
      assert caps == caps[..last] + [caps[last]];
    }
  }

  /** Round trip: a list of capability names joined with commas parses back to itself. */
  lemma ParseJoined(caps: seq<string>)
    requires forall c :: c in caps ==> CapName(c)
    ensures ParseCaps(Join(caps)) == caps
  {
    if caps != [] {
      SplitJoin(caps);
      KeptNames(caps);
    }
  }

  // ------------------------------------------------------------------ sorted lists

  /** Byte order of strings. */
  predicate Leq(a: string, b: string) {
    a == "" || (b != "" && (a[0] < b[0] || (a[0] == b[0] && Leq(a[1..], b[1..]))))
  }

  lemma {:induction false} LeqTotal(a: string, b: string)
    ensures Leq(a, b) || Leq(b, a)
  {
    if a != "" && b != "" {
      LeqTotal(a[1..], b[1..]);
    }
  }

  lemma {:induction false} LeqAntisymmetric(a: string, b: string)
    requires Leq(a, b) && Leq(b, a)
    ensures a == b
  {
    if a != "" && b != "" {
      LeqAntisymmetric(a[1..], b[1..]);
      assert a == [a[0]] + a[1..] && b == [b[0]] + b[1..];
    }
  }

  lemma {:induction false} LeqTransitive(a: string, b: string, c: string)
    requires Leq(a, b) && Leq(b, c)
    ensures Leq(a, c)
  {
    if a != "" && a[0] == b[0] == c[0] {
      LeqTransitive(a[1..], b[1..], c[1..]);
    }
  }

  ghost predicate IsSorted(s: seq<string>) {
    forall i, j :: 0 <= i < j < |s| ==> Leq(s[i], s[j])
  }

  function Insert(s: seq<string>, x: string): (r: seq<string>)
    ensures multiset(r) == multiset(s) + multiset{x}
  {
    if s == [] then [x]
    else if Leq(x, s[0]) then [x] + s
    else
      assert s == [s[0]] + s[1..];
      [s[0]] + Insert(s[1..], x)
  }

  function Sorted(s: seq<string>): (r: seq<string>)
    ensures multiset(r) == multiset(s)
  {
    if s == [] then []
    else
      assert s == [s[0]] + s[1..];
      Insert(Sorted(s[1..]), s[0])
  }

  lemma {:induction false} InsertSorted(s: seq<string>, x: string)
    requires IsSorted(s)
    ensures IsSorted(Insert(s, x))
  {
    if s != [] {
      if Leq(x, s[0]) {
        forall j | 0 <= j < |s|
          ensures Leq(x, s[j])
        {
          if j > 0 {
            LeqTransitive(x, s[0], s[j]);
          }
        }
      } else {
        InsertSorted(s[1..], x);
        LeqTotal(x, s[0]);
        var rest := Insert(s[1..], x);
        forall j | 0 <= j < |rest|
          ensures Leq(s[0], rest[j])
        {
          assert rest[j] in multiset(rest);
          assert rest[j] == x || rest[j] in multiset(s[1..]);
          if rest[j] != x {
            assert rest[j] in s[1..];
            var i :| 0 <= i < |s[1..]| && s[1..][i] == rest[j];
            assert s[i + 1] == rest[j];
          }
        }
      }
    }
  }

  lemma {:induction false} SortedIsSorted(s: seq<string>)
    ensures IsSorted(Sorted(s))
  {
    if s != [] {
      SortedIsSorted(s[1..]);
      InsertSorted(Sorted(s[1..]), s[0]);
    }
  }

  /** Two sorted lists with the same elements are the same list. */
  lemma {:induction false} SortedUnique(a: seq<string>, b: seq<string>)
    requires IsSorted(a) && IsSorted(b) && multiset(a) == multiset(b)
    ensures a == b
  {
    if a == [] {
      assert |multiset(b)| == 0;
    } else {
      assert |a| == |multiset(a)| == |multiset(b)| == |b|;
      HeadLeq(a, b);
      HeadLeq(b, a);
      LeqAntisymmetric(a[0], b[0]);
      TailsSame(a, b);
      SortedUnique(a[1..], b[1..]);
      assert a == [a[0]] + a[1..] && b == [b[0]] + b[1..];
    }
  }

  lemma TailsSame(a: seq<string>, b: seq<string>)
    requires a != [] && b != [] && a[0] == b[0] && multiset(a) == multiset(b)
    ensures multiset(a[1..]) == multiset(b[1..])
  {
    assert a == [a[0]] + a[1..] && b == [b[0]] + b[1..];
    assert multiset(a[1..]) == multiset(a) - multiset{a[0]};
    assert multiset(b[1..]) == multiset(b) - multiset{b[0]};
  }

  lemma HeadLeq(a: seq<string>, b: seq<string>)
    requires IsSorted(a) && a != [] && b != [] && multiset(a) == multiset(b)
    ensures Leq(a[0], b[0])
  {
    assert b[0] in multiset(b);
    assert b[0] in a;
    var i :| 0 <= i < |a| && a[i] == b[0];
    if i == 0 {
      LeqTotal(a[0], a[0]);
    }
  }

  /** The comparison form of a capability list. */
  function CapsText(caps: seq<string>): string {
    Join(Sorted(caps))
  }

  /** For lists that labels can produce, equal texts mean permuted lists, and permuted lists have
      equal texts: the watcher tells two lists apart exactly when they differ as multisets. */
  lemma CapsTextIff(a: seq<string>, b: seq<string>)
    requires forall c :: c in a ==> CapName(c)
    requires forall c :: c in b ==> CapName(c)
    ensures CapsText(a) == CapsText(b) <==> multiset(a) == multiset(b)
  {
    SortedIsSorted(a);
    SortedIsSorted(b);
    if multiset(a) == multiset(b) {
      SortedUnique(Sorted(a), Sorted(b));
    }
    if CapsText(a) == CapsText(b) {
      SortedNames(a);
      SortedNames(b);
      ParseJoined(Sorted(a));
      ParseJoined(Sorted(b));
    }
  }

  lemma SortedNames(a: seq<string>)
    requires forall c :: c in a ==> CapName(c)
    ensures forall c :: c in Sorted(a) ==> CapName(c)
  {
    forall c | c in Sorted(a)
      ensures CapName(c)
    {
      assert c in multiset(Sorted(a));
      assert c in multiset(a);
    }
  }
}
