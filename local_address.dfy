/**
 * Classification of a host as local (loopback, private, link-local), used to
 * decide whether a test target is only reachable from the local machine.
 *
 * Each entry of the address-pattern table is a start-anchored, end-unanchored
 * regular expression; here each one is an explicit character-level predicate.
 * Where a regex could backtrack over a choice of lengths, a ghost predicate
 * states the regex reading with the choice left open and a lemma shows that
 * the deterministic predicate accepts exactly the same strings.
 */
module LocalAddress {
  import opened Wrappers
  import opened Text

  /** `[0-9a-f]` (the patterns carry no `i` flag). */
  predicate IsHex(c: char) { IsDigit(c) || 'a' <= c <= 'f' }

  /** The length of the run of decimal digits that starts `s`. */
  function LeadingDigits(s: string): (n: nat)
    ensures n <= |s|
    ensures forall i :: 0 <= i < n ==> IsDigit(s[i])
    ensures n < |s| ==> !IsDigit(s[n])
  {
    if |s| > 0 && IsDigit(s[0]) then 1 + LeadingDigits(s[1..]) else 0
  }

  /** A digit run ended by a non-digit is exactly the leading digit run. */
  lemma DigitRunForced(s: string, k: nat)
    requires k < |s| && !IsDigit(s[k])
    requires forall i :: 0 <= i < k ==> IsDigit(s[i])
    ensures k == LeadingDigits(s)
  {
  }

  // ---------------------------------------------------------------------
  // IPv4 patterns

  /** The regex reading of `\d{1,3}\.` matching the first `k + 1` characters of `s`. */
  ghost predicate DigitsDotAt(s: string, k: nat)
  {
    1 <= k <= 3 && k < |s| && (forall i :: 0 <= i < k ==> IsDigit(s[i])) && s[k] == '.'
  }

  /** What follows a leading `\d{1,3}\.` in `s`, if `s` starts with one. */
  function OctetDot(s: string): Option<string>
  {
    var d := LeadingDigits(s);
    if 1 <= d <= 3 && d < |s| && s[d] == '.' then Some(s[d + 1..]) else None
  }

  /**
   * The length `\d{1,3}` takes before `\.` is forced: the deterministic
   * `OctetDot` succeeds exactly when some length matches, and then with that length.
   */
  lemma OctetDotIsRegex(s: string)
    ensures OctetDot(s).Some? <==> exists k :: DigitsDotAt(s, k)
    ensures forall k :: DigitsDotAt(s, k) ==> OctetDot(s) == Some(s[k + 1..])
  {
    forall k: nat | DigitsDotAt(s, k) ensures OctetDot(s) == Some(s[k + 1..]) {
      DigitRunForced(s, k);
    }
    if OctetDot(s).Some? {
      assert DigitsDotAt(s, LeadingDigits(s));
    }
  }

  /**
   * `\d{1,3}(\.\d{1,3}){n-1}` matches a prefix of `s`. The last `\d{1,3}` is
   * followed by nothing, so one digit is enough for it.
   */
  predicate Octets(s: string, n: nat)
    decreases n
  {
    if n <= 1 then |s| > 0 && IsDigit(s[0])
    else match OctetDot(s)
      case Some(rest) => Octets(rest, n - 1)
      case None => false
  }

  /** The optional IPv4-mapped IPv6 prefix `(::f{4}:)?`. */
  const MappedPrefix: string := "::ffff:"

  predicate Private10Body(s: string) { HasPrefix(s, "10.") && Octets(s[3..], 3) }

  predicate Loopback127Body(s: string) { HasPrefix(s, "127.") && Octets(s[4..], 3) }

  /** `[1-9]|1?\d\d|2[0-4]\d|25[0-4]` matching all of `t`. */
  predicate LinkLocalOctet(t: string)
  {
    || (|t| == 1 && '1' <= t[0] <= '9')
    || (|t| == 2 && IsDigit(t[0]) && IsDigit(t[1]))
    || (|t| == 3 && t[0] == '1' && IsDigit(t[1]) && IsDigit(t[2]))
    || (|t| == 3 && t[0] == '2' && '0' <= t[1] <= '4' && IsDigit(t[2]))
    || (|t| == 3 && t[0] == '2' && t[1] == '5' && '0' <= t[2] <= '4')
  }

  /** The regex reading of the third-octet group followed by `\.`, taking `k` characters. */
  ghost predicate ThirdOctetDotAt(r: string, k: nat)
  {
    k < |r| && LinkLocalOctet(r[..k]) && r[k] == '.'
  }

  /** The remainder after `([1-9]|1?\d\d|2[0-4]\d|25[0-4])\.`, if `r` starts with it. */
  function ThirdOctetDot(r: string): Option<string>
  {
    var d := LeadingDigits(r);
    if d < |r| && LinkLocalOctet(r[..d]) && r[d] == '.' then Some(r[d + 1..]) else None
  }

  /** The alternation cannot stop inside a digit run: only the whole run can be followed by `\.`. */
  lemma ThirdOctetDotIsRegex(r: string)
    ensures ThirdOctetDot(r).Some? <==> exists k :: ThirdOctetDotAt(r, k)
    ensures forall k :: ThirdOctetDotAt(r, k) ==> ThirdOctetDot(r) == Some(r[k + 1..])
  {
    forall k: nat | ThirdOctetDotAt(r, k) ensures ThirdOctetDot(r) == Some(r[k + 1..]) {
      assert forall i :: 0 <= i < k ==> IsDigit(r[..k][i]);
      DigitRunForced(r, k);
    }
    if ThirdOctetDot(r).Some? {
      assert ThirdOctetDotAt(r, LeadingDigits(r));
    }
  }

  predicate LinkLocal169Body(s: string)
  {
    HasPrefix(s, "169.254.") &&
    match ThirdOctetDot(s[8..])
    case Some(rest) => Octets(rest, 1)
    case None => false
  }

  /** `1[6-9]|2\d|3[0-1]`, the second octet of the 172.16.0.0/12 block. */
  predicate SecondOctet172(a: char, b: char)
  {
    (a == '1' && '6' <= b <= '9') || (a == '2' && IsDigit(b)) || (a == '3' && '0' <= b <= '1')
  }

  predicate Private172Body(s: string)
  {
    |s| >= 7 && HasPrefix(s, "172.") && SecondOctet172(s[4], s[5]) && s[6] == '.' && Octets(s[7..], 2)
  }

  predicate Private192Body(s: string) { HasPrefix(s, "192.168.") && Octets(s[8..], 2) }

  /** Each IPv4 pattern: its body at the start of `s`, or after a leading `::ffff:`. */
  predicate Private10(s: string)
  {
    Private10Body(s) || (HasPrefix(s, MappedPrefix) && Private10Body(s[7..]))
  }

  predicate Loopback127(s: string)
  {
    Loopback127Body(s) || (HasPrefix(s, MappedPrefix) && Loopback127Body(s[7..]))
  }

  predicate LinkLocal169(s: string)
  {
    LinkLocal169Body(s) || (HasPrefix(s, MappedPrefix) && LinkLocal169Body(s[7..]))
  }

  predicate Private172(s: string)
  {
    Private172Body(s) || (HasPrefix(s, MappedPrefix) && Private172Body(s[7..]))
  }

  predicate Private192(s: string)
  {
    Private192Body(s) || (HasPrefix(s, MappedPrefix) && Private192Body(s[7..]))
  }

  // ---------------------------------------------------------------------
  // IPv6 patterns

  /** One repetition of `(::1$|:[0-9a-f]{1,4})` taking the first `k` characters of `r`. */
  ghost predicate HexGroupAt(r: string, k: nat)
  {
    || (k == 3 && r == "::1")
    || (2 <= k <= 5 && k <= |r| && r[0] == ':' && forall i :: 1 <= i < k ==> IsHex(r[i]))
  }

  /** `n` repetitions of the group match a prefix of `r`. */
  ghost predicate HexGroups(r: string, n: nat)
    decreases n
  {
    n == 0 || exists k :: 1 <= k <= |r| && HexGroupAt(r, k) && HexGroups(r[k..], n - 1)
  }

  /**
   * `(::1$|:[0-9a-f]{1,4}){1,7}` at the start of `r`. Nothing follows the
   * group in the pattern, so the first repetition decides; see `GroupsIsRegex`.
   */
  predicate Groups(r: string)
  {
    r == "::1" || (|r| >= 2 && r[0] == ':' && IsHex(r[1]))
  }

  lemma GroupsIsRegex(r: string)
    ensures Groups(r) <==> exists n :: 1 <= n <= 7 && HexGroups(r, n)
  {
    if Groups(r) {
      var k := if r == "::1" then 3 else 2;
      assert HexGroupAt(r, k) && HexGroups(r[k..], 0);
      assert HexGroups(r, 1);
    }
    if exists n :: 1 <= n <= 7 && HexGroups(r, n) {
      var n :| 1 <= n <= 7 && HexGroups(r, n);
      var k :| 1 <= k <= |r| && HexGroupAt(r, k) && HexGroups(r[k..], n - 1);
      if k != 3 || r != "::1" {
        assert IsHex(r[1]);
      }
    }
  }

  /** `^f[c-d][0-9a-f]{2}(::1$|:[0-9a-f]{1,4}){1,7}`: fc00::/7. */
  predicate UniqueLocalFc(s: string)
  {
    |s| >= 4 && s[0] == 'f' && (s[1] == 'c' || s[1] == 'd') && IsHex(s[2]) && IsHex(s[3]) && Groups(s[4..])
  }

  /** `^fe[89ab][0-9a-f](::1$|:[0-9a-f]{1,4}){1,7}`: fe80::/10. */
  predicate LinkLocalFe(s: string)
  {
    |s| >= 4 && s[0] == 'f' && s[1] == 'e' && s[2] in "89ab" && IsHex(s[3]) && Groups(s[4..])
  }

  // ---------------------------------------------------------------------
  // The table and the classifiers

  datatype Range = Private10Range | Loopback127Range | LinkLocal169Range | Private172Range
                 | Private192Range | UniqueLocalRange | LinkLocal6Range

  /** The seven address patterns, in table order. */
  const LocalIpRanges: seq<Range> := [Private10Range, Loopback127Range, LinkLocal169Range,
    Private172Range, Private192Range, UniqueLocalRange, LinkLocal6Range]

  /** `pattern.test(address)`. */
  predicate Test(p: Range, s: string)
  {
    match p
    case Private10Range => Private10(s)
    case Loopback127Range => Loopback127(s)
    case LinkLocal169Range => LinkLocal169(s)
    case Private172Range => Private172(s)
    case Private192Range => Private192(s)
    case UniqueLocalRange => UniqueLocalFc(s)
    case LinkLocal6Range => LinkLocalFe(s)
  }

  /** `ranges.some(pattern => pattern.test(address))`. */
  predicate SomeTest(ranges: seq<Range>, s: string)
  {
    |ranges| > 0 && (Test(ranges[0], s) || SomeTest(ranges[1..], s))
  }

  function IsLocalIp(address: string): bool
  {
    address == "::" || address == "::1" || address == "0.0.0.0" || SomeTest(LocalIpRanges, address)
  }

  /** `.some` over a table is true exactly when one of its patterns matches. */
  lemma {:induction false} SomeTestExists(ranges: seq<Range>, s: string)
    ensures SomeTest(ranges, s) <==> exists i :: 0 <= i < |ranges| && Test(ranges[i], s)
  {
    if |ranges| > 0 {
      SomeTestExists(ranges[1..], s);
      if Test(ranges[0], s) {
        assert Test(ranges[0], s);
      }
      forall i | 1 <= i < |ranges| ensures ranges[i] == ranges[1..][i - 1] {}
    }
  }

  /** A host is local exactly when it is one of the three literals or matches one of the seven patterns. */
  lemma IsLocalIpCases(address: string)
    ensures IsLocalIp(address) <==>
      || address in {"::", "::1", "0.0.0.0"}
      || Private10(address) || Loopback127(address) || LinkLocal169(address)
      || Private172(address) || Private192(address) || UniqueLocalFc(address) || LinkLocalFe(address)
  {
    SomeTestExists(LocalIpRanges, address);
    if SomeTest(LocalIpRanges, address) {
      var i :| 0 <= i < |LocalIpRanges| && Test(LocalIpRanges[i], address);
    } else {
      assert Test(LocalIpRanges[0], address) == Private10(address);
      assert Test(LocalIpRanges[1], address) == Loopback127(address);
      assert Test(LocalIpRanges[2], address) == LinkLocal169(address);
      assert Test(LocalIpRanges[3], address) == Private172(address);
      assert Test(LocalIpRanges[4], address) == Private192(address);
      assert Test(LocalIpRanges[5], address) == UniqueLocalFc(address);
      assert Test(LocalIpRanges[6], address) == LinkLocalFe(address);
    }
  }

  /** A host that matches one of the patterns of the table is local. */
  lemma PatternIsLocal(p: Range, s: string)
    requires Test(p, s)
    ensures IsLocalIp(s)
  {
    SomeTestExists(LocalIpRanges, s);
    var i := match p
      case Private10Range => 0
      case Loopback127Range => 1
      case LinkLocal169Range => 2
      case Private172Range => 3
      case Private192Range => 4
      case UniqueLocalRange => 5
      case LinkLocal6Range => 6;
    assert LocalIpRanges[i] == p;
  }

  /**
   * `hostname.replace(/^\[|\]$/g, '')`: one leading '[' and one trailing ']'
   * are removed, each independently of the other.
   */
  function StripBrackets(h: string): (r: string)
  {
    var lead := |h| > 0 && h[0] == '[';
    var trail := |h| > 0 && h[|h| - 1] == ']';
    h[(if lead then 1 else 0)..(if trail then |h| - 1 else |h|)]
  }

  /**
   * `isLocalUrl`, from the hostname the URL parser produced (`None` when
   * parsing throws, which the source catches and answers with false).
   */
  function IsLocalUrl(hostname: Option<string>): bool
  {
    match hostname
    case None => false
    case Some(raw) =>
      var h := ToLowerAscii(raw);
      if h == "localhost" || HasSuffix(h, ".localhost") then true
      else IsLocalIp(StripBrackets(h))
  }
}

/** What the classifier promises: the ranges it accepts, its quirks, and the examples it documents. */
module LocalAddressProperties {
  import opened Wrappers
  import opened Text
  import opened LocalAddress

  lemma HasPrefixConcat(p: string, r: string)
    ensures HasPrefix(p + r, p) && (p + r)[|p|..] == r
  {
    assert (p + r)[..|p|] == p;
  }

  /** `x.rest`: one octet text, a dot, and what follows. */
  function Dotted(x: string, rest: string): (r: string)
    ensures |r| == |x| + 1 + |rest| && r[|x|] == '.'
    ensures r[..|x|] == x && r[|x| + 1..] == rest
  {
    x + "." + rest
  }

  lemma {:induction false} LeadingDigitsOfDotted(x: string, rest: string)
    requires AllDigits(x)
    ensures LeadingDigits(Dotted(x, rest)) == |x|
  {
    var s := Dotted(x, rest);
    forall i | 0 <= i < |x| ensures IsDigit(s[i]) {
      assert s[i] == s[..|x|][i];
    }
    DigitRunForced(s, |x|);
  }

  /** A dotted octet of one to three digits is consumed by `\d{1,3}\.` whole. */
  lemma OctetsOfDotted(x: string, rest: string, n: nat)
    requires 1 <= |x| <= 3 && AllDigits(x) && n >= 2
    ensures Octets(Dotted(x, rest), n) == Octets(rest, n - 1)
  {
    LeadingDigitsOfDotted(x, rest);
  }

  /** A host that starts with "172." can only be local through the 172.16.0.0/12 pattern. */
  lemma OnlyPrivate172(s: string)
    requires HasPrefix(s, "172.")
    ensures IsLocalIp(s) == Private172Body(s)
  {
    assert s[0] == '1' && s[1] == '7' && s[2] == '2' && s[3] == '.';
    IsLocalIpCases(s);
  }

  /** A host that starts with "169.254." can only be local through the link-local pattern. */
  lemma OnlyLinkLocal169(s: string)
    requires HasPrefix(s, "169.254.")
    ensures IsLocalIp(s) == LinkLocal169Body(s)
  {
    assert s[0] == '1' && s[1] == '6' && s[2] == '9' && s[3] == '.';
    IsLocalIpCases(s);
  }

  /**
   * `172.a.x.y` is local exactly when the second octet is written with two
   * digits and lies in 16..31 (so 172.32.0.1 and 172.016.0.1 are not local).
   */
  lemma Private172Iff(a: string, x: string, y: string)
    requires 1 <= |a| <= 3 && AllDigits(a)
    requires 1 <= |x| <= 3 && AllDigits(x)
    requires 1 <= |y| && AllDigits(y)
    ensures IsLocalIp("172." + Dotted(a, Dotted(x, y))) <==> |a| == 2 && 16 <= DigitsValue(a) <= 31
  {
    HasPrefixConcat("172.", Dotted(a, Dotted(x, y)));
    OnlyPrivate172("172." + Dotted(a, Dotted(x, y)));
    Private172BodyIff(a, x, y);
  }

  lemma Private172BodyIff(a: string, x: string, y: string)
    requires 1 <= |a| <= 3 && AllDigits(a)
    requires 1 <= |x| <= 3 && AllDigits(x)
    requires 1 <= |y| && AllDigits(y)
    ensures Private172Body("172." + Dotted(a, Dotted(x, y))) <==> |a| == 2 && 16 <= DigitsValue(a) <= 31
  {
    var r := Dotted(a, Dotted(x, y));
    var s := "172." + r;
    if |a| == 2 {
      Private172TwoDigits(a, x, y);
      SecondOctet172Value(a);
    } else if |a| == 1 {
      assert s[5] == r[1] == '.';
    } else {
      assert r[2] == r[..|a|][2] == a[2];
      assert s[6] == r[2];
    }
  }

  lemma Private172TwoDigits(a: string, x: string, y: string)
    requires |a| == 2
    requires 1 <= |x| <= 3 && AllDigits(x)
    requires 1 <= |y| && AllDigits(y)
    ensures Private172Body("172." + Dotted(a, Dotted(x, y))) == SecondOctet172(a[0], a[1])
  {
    var r := Dotted(a, Dotted(x, y));
    var s := "172." + r;
    HasPrefixConcat("172.", r);
    assert r[0] == r[..2][0] == a[0] && r[1] == r[..2][1] == a[1];
    assert s[4] == a[0] && s[5] == a[1] && s[6] == '.';
    assert s[7..] == r[3..];
    OctetsOfDotted(x, y, 2);
  }

  lemma SecondOctet172Value(a: string)
    requires |a| == 2 && AllDigits(a)
    ensures SecondOctet172(a[0], a[1]) <==> 16 <= DigitsValue(a) <= 31
  {
    assert a[..1] == [a[0]];
    assert [a[0]][..0] == [];
    assert DigitsValue(a[..1]) == DigitValue(a[0]);
    assert DigitsValue(a) == 10 * DigitValue(a[0]) + DigitValue(a[1]);
  }

  /** `169.254.t.y` is local exactly when the third octet text matches `[1-9]|1?\d\d|2[0-4]\d|25[0-4]`. */
  lemma LinkLocal169Iff(t: string, y: string)
    requires 1 <= |t| <= 3 && AllDigits(t)
    requires 1 <= |y| && AllDigits(y)
    ensures IsLocalIp("169.254." + Dotted(t, y)) <==> LinkLocalOctet(t)
  {
    var s := "169.254." + Dotted(t, y);
    HasPrefixConcat("169.254.", Dotted(t, y));
    OnlyLinkLocal169(s);
    LeadingDigitsOfDotted(t, y);
  }

  /**
   * Written without a leading zero, a third octet passes the link-local
   * alternatives exactly when its value is 1..254. With a leading zero only
   * the two-digit alternative can pass: "00" to "09" are accepted, "0" and
   * three-digit forms like "099" are not.
   */
  lemma LinkLocalOctetValue(t: string)
    requires 1 <= |t| <= 3 && AllDigits(t)
    ensures t[0] != '0' || |t| == 1 ==> (LinkLocalOctet(t) <==> 1 <= DigitsValue(t) <= 254)
    ensures t[0] == '0' && |t| > 1 ==> (LinkLocalOctet(t) <==> |t| == 2)
  {
    if |t| >= 2 {
      assert t[..1] == [t[0]];
    }
    if |t| == 3 {
      assert t[..2][..1] == [t[0]];
      assert DigitsValue(t) == 100 * DigitValue(t[0]) + 10 * DigitValue(t[1]) + DigitValue(t[2]);
    }
  }

  lemma {:induction false} LeadingDigitsAppend(s: string, t: string)
    requires LeadingDigits(s) < |s|
    ensures LeadingDigits(s + t) == LeadingDigits(s)
  {
    var d := LeadingDigits(s);
    assert (s + t)[d] == s[d];
    DigitRunForced(s + t, d);
  }

  lemma {:induction false} OctetsAppend(s: string, t: string, n: nat)
    requires Octets(s, n)
    ensures Octets(s + t, n)
    decreases n
  {
    if n > 1 {
      OctetDotAppend(s, t);
      OctetsAppend(OctetDot(s).value, t, n - 1);
    }
  }

  lemma OctetDotAppend(s: string, t: string)
    requires OctetDot(s).Some?
    ensures OctetDot(s + t) == Some(OctetDot(s).value + t)
  {
    var d := LeadingDigits(s);
    LeadingDigitsAppend(s, t);
    assert (s + t)[d] == s[d];
    assert (s + t)[d + 1..] == s[d + 1..] + t;
  }

  lemma PrefixAppend(s: string, p: string, t: string)
    requires HasPrefix(s, p)
    ensures HasPrefix(s + t, p)
    ensures forall k :: |p| <= k <= |s| ==> (s + t)[k..] == s[k..] + t
  {
    assert (s + t)[..|p|] == s[..|p|];
  }

  /**
   * The IPv4 patterns are prefix matches: octet values are not range-checked
   * and text after the last octet is ignored, so appending anything to a
   * matching host keeps it matching.
   */
  lemma Ipv4TrailingTextIgnored(s: string, t: string)
    requires Private10(s) || Loopback127(s) || LinkLocal169(s) || Private172(s) || Private192(s)
    ensures IsLocalIp(s + t)
  {
    IsLocalIpCases(s + t);
    var u := if HasPrefix(s, MappedPrefix) then 7 else 0;
    if HasPrefix(s, MappedPrefix) { PrefixAppend(s, MappedPrefix, t); }
    if Private10Body(s) { PrefixAppend(s, "10.", t); OctetsAppend(s[3..], t, 3); }
    else if Loopback127Body(s) { PrefixAppend(s, "127.", t); OctetsAppend(s[4..], t, 3); }
    else if LinkLocal169Body(s) { LinkLocal169BodyAppend(s, t); }
    else if Private172Body(s) { PrefixAppend(s, "172.", t); OctetsAppend(s[7..], t, 2); }
    else if Private192Body(s) { PrefixAppend(s, "192.168.", t); OctetsAppend(s[8..], t, 2); }
    else {
      var b := s[7..];
      assert (s + t)[7..] == b + t;
      if Private10Body(b) { PrefixAppend(b, "10.", t); OctetsAppend(b[3..], t, 3); }
      else if Loopback127Body(b) { PrefixAppend(b, "127.", t); OctetsAppend(b[4..], t, 3); }
      else if LinkLocal169Body(b) { LinkLocal169BodyAppend(b, t); }
      else if Private172Body(b) { PrefixAppend(b, "172.", t); OctetsAppend(b[7..], t, 2); }
      else { PrefixAppend(b, "192.168.", t); OctetsAppend(b[8..], t, 2); }
    }
  }

  lemma LinkLocal169BodyAppend(s: string, t: string)
    requires LinkLocal169Body(s)
    ensures LinkLocal169Body(s + t)
  {
    PrefixAppend(s, "169.254.", t);
    var r := s[8..];
    var d := LeadingDigits(r);
    LeadingDigitsAppend(r, t);
    assert (r + t)[..d] == r[..d];
    assert (r + t)[d + 1..] == r[d + 1..] + t;
    OctetsAppend(r[d + 1..], t, 1);
  }

  /** "10.999.0.1x" is local: no range check on the octets, no check of what follows. */
  lemma UncheckedOctetsExample()
    ensures IsLocalIp("10.999.0.1x")
  {
    var s := "10.999.0.1x";
    assert HasPrefix(s, "10.");
    assert s[3..] == Dotted("999", Dotted("0", "1x"));
    OctetsOfDotted("999", Dotted("0", "1x"), 3);
    OctetsOfDotted("0", "1x", 2);
    IsLocalIpCases(s);
  }

  /**
   * The IPv6 patterns accept a first group of four hex digits followed by
   * either ':' and a hex digit, or a final "::1"; "::" followed by anything
   * longer is refused, so appending text can make a local host non-local.
   */
  lemma LinkLocal6Example()
    ensures IsLocalIp("fe80::1")
  {
    var a := "fe80::1";
    assert a[4..] == "::1";
    IsLocalIpCases(a);
  }

  lemma UniqueLocalExample()
    ensures IsLocalIp("fd00:0:0:0:0:0:0:1")
  {
    var a := "fd00:0:0:0:0:0:0:1";
    assert a[4..][0] == ':' && a[4..][1] == '0';
    IsLocalIpCases(a);
  }

  lemma ExpandedLinkLocal6NotLocal()
    ensures !IsLocalIp("fe80::1ff:fe23:4567:890a")
  {
    NotLocalAfterDoubleColon("fe80::1ff:fe23:4567:890a");
  }

  lemma TextAfterLoopbackSuffixMatters()
    ensures IsLocalIp("fe80::1") && !IsLocalIp("fe80::1" + "ff")
  {
    LinkLocal6Example();
    NotLocalAfterDoubleColon("fe80::1" + "ff");
  }

  /** A host "f???::…" is not local unless what follows the first group is exactly "::1". */
  lemma NotLocalAfterDoubleColon(s: string)
    requires |s| >= 6 && s[0] == 'f' && s[4] == ':' && s[5] == ':' && s[4..] != "::1"
    ensures !IsLocalIp(s)
  {
    assert s[4..][1] == ':';
    assert !HasPrefix(s, MappedPrefix) && !HasPrefix(s, "10.") && !HasPrefix(s, "127.");
    assert !HasPrefix(s, "169.254.") && !HasPrefix(s, "172.") && !HasPrefix(s, "192.168.");
    IsLocalIpCases(s);
  }

  /** A hostname that lower-cases to "localhost" or to a name ending in ".localhost" is local, with no address check. */
  lemma LocalhostNames(hostname: string)
    requires ToLowerAscii(hostname) == "localhost" || HasSuffix(ToLowerAscii(hostname), ".localhost")
    ensures IsLocalUrl(Some(hostname))
  {
  }

  /** A URL that does not parse is reported as not local rather than failing. */
  lemma UnparseableNotLocal()
    ensures !IsLocalUrl(None)
  {
  }

  lemma {:induction false} ToLowerAsciiAppend(a: string, b: string)
    ensures ToLowerAscii(a + b) == ToLowerAscii(a) + ToLowerAscii(b)
  {
    var l, r := ToLowerAscii(a + b), ToLowerAscii(a) + ToLowerAscii(b);
    forall i | 0 <= i < |l| ensures l[i] == r[i] {
      if i >= |a| {
        assert (a + b)[i] == b[i - |a|];
      }
    }
  }

  /** A bracketed IPv6 host is classified by the address between the brackets. */
  lemma BracketedHost(address: string)
    ensures IsLocalUrl(Some("[" + address + "]")) == IsLocalIp(ToLowerAscii(address))
  {
    LowerBracketed(address);
    StripBracketed(ToLowerAscii(address));
  }

  lemma LowerBracketed(address: string)
    ensures ToLowerAscii("[" + address + "]") == "[" + ToLowerAscii(address) + "]"
  {
    ToLowerAsciiAppend("[" + address, "]");
    ToLowerAsciiAppend("[", address);
  }

  /** A bracketed name is no localhost name, and stripping gives back what is between the brackets. */
  lemma StripBracketed(x: string)
    ensures var h := "[" + x + "]";
      && h != "localhost" && !HasSuffix(h, ".localhost") && StripBrackets(h) == x
  {
    var h := "[" + x + "]";
    assert h[0] == '[' && h[|h| - 1] == ']';
    assert ".localhost"[9] == 't';
    assert "localhost"[0] == 'l';
    assert h[1..|h| - 1] == x;
  }

  lemma LowerCaseUnchanged(h: string)
    requires forall i :: 0 <= i < |h| ==> !('A' <= h[i] <= 'Z')
    ensures ToLowerAscii(h) == h
  {
    var r := ToLowerAscii(h);
    assert forall i :: 0 <= i < |h| ==> r[i] == h[i];
  }

  /** An unbracketed lower-case host that is not a localhost name is classified by its address. */
  lemma PlainHost(h: string)
    requires forall i :: 0 <= i < |h| ==> !('A' <= h[i] <= 'Z')
    requires |h| > 0 && h[0] != '[' && h[|h| - 1] != ']'
    requires h != "localhost" && !HasSuffix(h, ".localhost")
    ensures IsLocalUrl(Some(h)) == IsLocalIp(h)
  {
    LowerCaseUnchanged(h);
    assert StripBrackets(h) == h[0..|h|] == h;
  }

  /** Only digits and dots. */
  predicate NumericText(s: string) { forall i :: 0 <= i < |s| ==> IsDigit(s[i]) || s[i] == '.' }

  lemma NumericConcat(x: string, y: string)
    requires NumericText(x) && NumericText(y)
    ensures NumericText(x + y)
  {
    forall i | 0 <= i < |x + y| ensures IsDigit((x + y)[i]) || (x + y)[i] == '.' {
      if i >= |x| {
        assert (x + y)[i] == y[i - |x|];
      }
    }
  }

  /** A host of digits and dots is classified by its address. */
  lemma NumericHost(h: string)
    requires NumericText(h)
    requires |h| > 0 && IsDigit(h[|h| - 1])
    ensures IsLocalUrl(Some(h)) == IsLocalIp(h)
  {
    assert ".localhost"[9] == 't';
    PlainHost(h);
  }

  /**
   * The unbracketed hosts of the local example URLs listed in the source's
   * comment block, each as the URL parser hands it over.
   */
  lemma CommentExamplesLocal(h: string)
    requires || h == "localhost" || h == "test.localhost" || h == "127.0.0.1" || h == "0.0.0.0"
             || h == "192.168.1.1" || h == "10.0.0.1" || h == "172.16.0.1" || h == "172.20.10.5"
             || h == "169.254.10.15"
    ensures IsLocalUrl(Some(h))
  {
    if h == "localhost" {
      LocalhostNames(h);
    } else if h == "test.localhost" {
      SubdomainOfLocalhost(h);
    } else if h == "127.0.0.1" {
      LoopbackExample(h);
    } else if h == "0.0.0.0" {
      NumericHost(h);
    } else if h == "192.168.1.1" {
      Private192Example(h);
    } else if h == "10.0.0.1" {
      Private10Example(h);
    } else if h == "172.16.0.1" {
      Private172Example(h, "16", "0", "1");
    } else if h == "172.20.10.5" {
      Private172Example(h, "20", "10", "5");
    } else {
      LinkLocal169Example(h);
    }
  }

  /**
   * The bracketed hosts of the source's comment block, as the URL parser
   * gives them: "[::1]" and "[fe80::1ff:fe23:4567:890a]" are kept, while
   * "[::ffff:127.0.0.1]" comes out as "[::ffff:7f00:1]". Only "[::1]" is
   * local; the IPv4-mapped loopback is not, because no pattern reads the
   * hexadecimal form.
   */
  lemma CommentExamplesBracketed(a: string)
    requires a == "::1" || a == "::ffff:7f00:1" || a == "fe80::1ff:fe23:4567:890a"
    ensures IsLocalUrl(Some("[" + a + "]")) <==> a == "::1"
  {
    if a == "::1" {
      BracketedLoopback6(a);
    } else if a == "::ffff:7f00:1" {
      BracketedMappedHex(a);
    } else {
      BracketedLinkLocal6(a);
    }
  }

  lemma BracketedLoopback6(a: string)
    requires a == "::1"
    ensures IsLocalUrl(Some("[" + a + "]"))
  {
    BracketedHost(a);
    LowerLoopback6(a);
  }

  lemma BracketedMappedHex(a: string)
    requires a == "::ffff:7f00:1"
    ensures !IsLocalUrl(Some("[" + a + "]"))
  {
    BracketedHost(a);
    LowerMappedHex(a);
    MappedHexNotLocal(a);
  }

  lemma BracketedLinkLocal6(a: string)
    requires a == "fe80::1ff:fe23:4567:890a"
    ensures !IsLocalUrl(Some("[" + a + "]"))
  {
    BracketedHost(a);
    LowerLinkLocal6(a);
    ExpandedLinkLocal6NotLocal();
  }

  lemma LowerLoopback6(a: string)
    requires a == "::1"
    ensures ToLowerAscii(a) == a && IsLocalIp(a)
  {
    assert ToLowerAscii("::1") == "::1";
  }

  lemma LowerMappedHex(a: string)
    requires a == "::ffff:7f00:1"
    ensures ToLowerAscii(a) == "::ffff:7f00:1"
  {
    assert ToLowerAscii("::ffff:7f00:1") == "::ffff:7f00:1";
  }

  /**
   * The parser's spelling of the IPv4-mapped loopback is not local: after
   * `::ffff:` comes `7f00`, which starts none of the IPv4 patterns.
   */
  lemma MappedHexNotLocal(s: string)
    requires s == "::ffff:7f00:1"
    ensures !IsLocalIp(s)
  {
    var r := s[7..];
    assert HasPrefix(s, MappedPrefix) && r == "7f00:1";
    assert !HasPrefix(r, "10.") && !HasPrefix(r, "127.") && !HasPrefix(r, "169.254.");
    assert !HasPrefix(r, "172.") && !HasPrefix(r, "192.168.");
    assert !HasPrefix(s, "10.") && !HasPrefix(s, "127.") && !HasPrefix(s, "169.254.");
    assert !HasPrefix(s, "172.") && !HasPrefix(s, "192.168.");
    IsLocalIpCases(s);
  }

  lemma LowerLinkLocal6(a: string)
    requires a == "fe80::1ff:fe23:4567:890a"
    ensures ToLowerAscii(a) == "fe80::1ff:fe23:4567:890a"
  {
    assert ToLowerAscii("fe80::1ff:fe23:4567:890a") == "fe80::1ff:fe23:4567:890a";
  }

  lemma SubdomainOfLocalhost(h: string)
    requires h == "test.localhost"
    ensures IsLocalUrl(Some(h))
  {
    LowerCaseUnchanged(h);
    assert h[4..] == ".localhost";
  }

  /** `a.b.c` with `a` and `b` of one to three digits and `c` of digits matches `\d{1,3}(\.\d{1,3}){2}`. */
  lemma DottedOctets(a: string, b: string, c: string)
    requires 1 <= |a| <= 3 && AllDigits(a) && 1 <= |b| <= 3 && AllDigits(b) && 1 <= |c| && AllDigits(c)
    ensures Octets(Dotted(a, Dotted(b, c)), 3)
  {
    OctetsOfDotted(a, Dotted(b, c), 3);
    OctetsOfDotted(b, c, 2);
  }

  /** Every dotted quad `127.a.b.c` is local, whatever the octet values. */
  lemma Loopback127Ip(a: string, b: string, c: string)
    requires 1 <= |a| <= 3 && AllDigits(a) && 1 <= |b| <= 3 && AllDigits(b) && 1 <= |c| && AllDigits(c)
    ensures IsLocalIp("127." + Dotted(a, Dotted(b, c)))
  {
    HasPrefixConcat("127.", Dotted(a, Dotted(b, c)));
    DottedOctets(a, b, c);
    PatternIsLocal(Loopback127Range, "127." + Dotted(a, Dotted(b, c)));
  }

  /** Every dotted quad `10.a.b.c` is local. */
  lemma Private10Ip(a: string, b: string, c: string)
    requires 1 <= |a| <= 3 && AllDigits(a) && 1 <= |b| <= 3 && AllDigits(b) && 1 <= |c| && AllDigits(c)
    ensures IsLocalIp("10." + Dotted(a, Dotted(b, c)))
  {
    HasPrefixConcat("10.", Dotted(a, Dotted(b, c)));
    DottedOctets(a, b, c);
    PatternIsLocal(Private10Range, "10." + Dotted(a, Dotted(b, c)));
  }

  /** Every `192.168.b.c` is local. */
  lemma Private192Ip(b: string, c: string)
    requires 1 <= |b| <= 3 && AllDigits(b) && 1 <= |c| && AllDigits(c)
    ensures IsLocalIp("192.168." + Dotted(b, c))
  {
    HasPrefixConcat("192.168.", Dotted(b, c));
    OctetsOfDotted(b, c, 2);
    PatternIsLocal(Private192Range, "192.168." + Dotted(b, c));
  }

  /** The IPv4-mapped form `::ffff:127.a.b.c` is local too. */
  lemma MappedLoopbackIp(a: string, b: string, c: string)
    requires 1 <= |a| <= 3 && AllDigits(a) && 1 <= |b| <= 3 && AllDigits(b) && 1 <= |c| && AllDigits(c)
    ensures IsLocalIp(MappedPrefix + ("127." + Dotted(a, Dotted(b, c))))
  {
    var t := "127." + Dotted(a, Dotted(b, c));
    HasPrefixConcat(MappedPrefix, t);
    HasPrefixConcat("127.", Dotted(a, Dotted(b, c)));
    DottedOctets(a, b, c);
    PatternIsLocal(Loopback127Range, MappedPrefix + t);
  }

  lemma NumericOfDigits(s: string)
    requires AllDigits(s)
    ensures NumericText(s)
  {
  }

  /** `x.rest` with `x` of digits and `rest` numeric and ending in a digit is numeric and ends in a digit. */
  lemma NumericDotted(x: string, rest: string)
    requires AllDigits(x) && NumericText(rest) && |rest| > 0 && IsDigit(rest[|rest| - 1])
    ensures var h := Dotted(x, rest); NumericText(h) && IsDigit(h[|h| - 1])
  {
    var h := Dotted(x, rest);
    forall i | 0 <= i < |h| ensures IsDigit(h[i]) || h[i] == '.' {
      if i < |x| {
        assert h[i] == h[..|x|][i];
      } else if i > |x| {
        assert h[i] == h[|x| + 1..][i - |x| - 1];
      }
    }
    assert h[|h| - 1] == h[|x| + 1..][|rest| - 1];
  }

  lemma NumericPrefixed(p: string, r: string)
    requires NumericText(p) && NumericText(r) && |r| > 0 && IsDigit(r[|r| - 1])
    ensures var h := p + r; NumericText(h) && IsDigit(h[|h| - 1])
  {
    NumericConcat(p, r);
  }

  /** A numeric prefix followed by `a.b.c` of digit runs is a numeric host, classified by its address. */
  lemma NumericQuad(p: string, a: string, b: string, c: string)
    requires NumericText(p) && AllDigits(a) && AllDigits(b) && AllDigits(c) && |c| > 0
    ensures var h := p + Dotted(a, Dotted(b, c)); IsLocalUrl(Some(h)) == IsLocalIp(h)
  {
    NumericOfDigits(c);
    NumericDotted(b, c);
    NumericDotted(a, Dotted(b, c));
    NumericPrefixed(p, Dotted(a, Dotted(b, c)));
    NumericHost(p + Dotted(a, Dotted(b, c)));
  }

  /** A numeric prefix followed by `b.c` of digit runs is a numeric host. */
  lemma NumericPair(p: string, b: string, c: string)
    requires NumericText(p) && AllDigits(b) && AllDigits(c) && |c| > 0
    ensures var h := p + Dotted(b, c); IsLocalUrl(Some(h)) == IsLocalIp(h)
  {
    NumericOfDigits(c);
    NumericDotted(b, c);
    NumericPrefixed(p, Dotted(b, c));
    NumericHost(p + Dotted(b, c));
  }

  /** The five IPv4 prefixes the range lemmas start from are made of digits and dots. */
  lemma PrefixNumeric(p: string)
    requires p == "10." || p == "127." || p == "172." || p == "192.168." || p == "169.254."
    ensures NumericText(p)
  {
  }

  lemma Loopback127Url(a: string, b: string, c: string)
    requires 1 <= |a| <= 3 && AllDigits(a) && 1 <= |b| <= 3 && AllDigits(b) && 1 <= |c| && AllDigits(c)
    ensures IsLocalUrl(Some("127." + Dotted(a, Dotted(b, c))))
  {
    Loopback127Ip(a, b, c);
    PrefixNumeric("127.");
    NumericQuad("127.", a, b, c);
  }

  lemma Private10Url(a: string, b: string, c: string)
    requires 1 <= |a| <= 3 && AllDigits(a) && 1 <= |b| <= 3 && AllDigits(b) && 1 <= |c| && AllDigits(c)
    ensures IsLocalUrl(Some("10." + Dotted(a, Dotted(b, c))))
  {
    Private10Ip(a, b, c);
    PrefixNumeric("10.");
    NumericQuad("10.", a, b, c);
  }

  lemma Private192Url(b: string, c: string)
    requires 1 <= |b| <= 3 && AllDigits(b) && 1 <= |c| && AllDigits(c)
    ensures IsLocalUrl(Some("192.168." + Dotted(b, c)))
  {
    Private192Ip(b, c);
    PrefixNumeric("192.168.");
    NumericPair("192.168.", b, c);
  }

  /** As a URL host, `172.a.x.y` is local exactly when `a` is two digits with value 16..31. */
  lemma Private172Url(a: string, x: string, y: string)
    requires 1 <= |a| <= 3 && AllDigits(a) && 1 <= |x| <= 3 && AllDigits(x) && 1 <= |y| && AllDigits(y)
    ensures IsLocalUrl(Some("172." + Dotted(a, Dotted(x, y)))) <==> |a| == 2 && 16 <= DigitsValue(a) <= 31
  {
    Private172Iff(a, x, y);
    PrefixNumeric("172.");
    NumericQuad("172.", a, x, y);
  }

  /** As a URL host, `169.254.t.y` is local exactly when `t` passes the link-local alternatives. */
  lemma LinkLocal169Url(t: string, y: string)
    requires 1 <= |t| <= 3 && AllDigits(t) && 1 <= |y| && AllDigits(y)
    ensures IsLocalUrl(Some("169.254." + Dotted(t, y))) <==> LinkLocalOctet(t)
  {
    LinkLocal169Iff(t, y);
    PrefixNumeric("169.254.");
    NumericPair("169.254.", t, y);
  }

  lemma QuadLiteral(h: string, p: string)
    requires h == p + "0.0.1"
    ensures h == p + Dotted("0", Dotted("0", "1"))
  {
    assert Dotted("0", Dotted("0", "1")) == "0.0.1";
  }

  lemma MappedLiteral(s: string)
    requires s == "::ffff:127.0.0.1"
    ensures s == MappedPrefix + ("127." + Dotted("0", Dotted("0", "1")))
  {
  }

  lemma LoopbackExample(h: string)
    requires h == "127.0.0.1"
    ensures IsLocalUrl(Some(h))
  {
    Loopback127Url("0", "0", "1");
    QuadLiteral(h, "127.");
  }

  lemma Private192Example(h: string)
    requires h == "192.168.1.1"
    ensures IsLocalUrl(Some(h))
  {
    Private192Url("1", "1");
    assert h == "192.168." + Dotted("1", "1");
  }

  lemma Private10Example(h: string)
    requires h == "10.0.0.1"
    ensures IsLocalUrl(Some(h))
  {
    Private10Url("0", "0", "1");
    QuadLiteral(h, "10.");
  }

  lemma Private172Example(h: string, a: string, x: string, y: string)
    requires |a| == 2 && AllDigits(a) && 1 <= |x| <= 3 && AllDigits(x) && 1 <= |y| && AllDigits(y)
    requires h == "172." + Dotted(a, Dotted(x, y))
    ensures IsLocalUrl(Some(h)) <==> 16 <= 10 * DigitValue(a[0]) + DigitValue(a[1]) <= 31
  {
    Private172Url(a, x, y);
    DigitsValue2(a);
  }

  lemma LinkLocal169Example(h: string)
    requires h == "169.254.10.15"
    ensures IsLocalUrl(Some(h))
  {
    LinkLocal169Url("10", "15");
    assert LinkLocalOctet("10");
    assert h == "169.254." + Dotted("10", "15");
  }

  lemma MappedLoopbackExample(s: string)
    requires s == "::ffff:127.0.0.1"
    ensures IsLocalIp(s)
  {
    MappedLoopbackIp("0", "0", "1");
    MappedLiteral(s);
  }

  /** The unbracketed hosts of the non-local example URLs listed in the source's comment block. */
  lemma CommentExamplesNotLocal(h: string)
    requires h == "example.com" || h == "192.169.1.1" || h == "172.32.0.1"
    ensures !IsLocalUrl(Some(h))
  {
    if h == "example.com" {
      ExampleComNotLocal(h);
    } else if h == "192.169.1.1" {
      Near192NotLocal(h);
    } else {
      Private172Example(h, "32", "0", "1");
    }
  }

  lemma ExampleComNotLocal(h: string)
    requires h == "example.com"
    ensures !IsLocalUrl(Some(h))
  {
    assert h[0] == 'e';
    NoRangePrefix(h);
    PlainHost(h);
  }

  lemma Near192NotLocal(h: string)
    requires h == "192.169.1.1"
    ensures !IsLocalUrl(Some(h))
  {
    assert h[0] == '1' && h[1] == '9' && h[6] == '9';
    NoRangePrefix(h);
    NumericHost(h);
  }

  /** A host that starts like none of the patterns and is none of the three literals is not local. */
  lemma NoRangePrefix(s: string)
    requires |s| > 0 && s[0] != 'f' && s[0] != ':'
    requires s != "0.0.0.0"
    requires !HasPrefix(s, "10.") && !HasPrefix(s, "127.") && !HasPrefix(s, "169.254.")
    requires !HasPrefix(s, "172.") && !HasPrefix(s, "192.168.")
    ensures !IsLocalIp(s)
  {
    assert s != "::" && s != "::1";
    assert !HasPrefix(s, MappedPrefix);
    IsLocalIpCases(s);
  }

  lemma DigitsValue2(a: string)
    requires |a| == 2 && AllDigits(a)
    ensures DigitsValue(a) == 10 * DigitValue(a[0]) + DigitValue(a[1])
  {
    assert a[..1] == [a[0]];
    assert [a[0]][..0] == [];
    assert DigitsValue(a[..1]) == DigitValue(a[0]);
  }
}
