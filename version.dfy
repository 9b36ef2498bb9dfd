/** Version-number parsing of libgcrypt: `parse_version_number` reads one
    decimal component and `parse_version_string` splits
    `<major>.<minor>.<micro><patchlevel>`.

    A C string is a sequence of characters read up to its terminating
    NUL; here it is a `seq<char>` and reading at or past its end gives
    NUL. A pointer into the string is an index into the sequence. */
module Version {

  import opened Machine
  import opened Wrappers

  /** `isdigit` in the C locale */
  predicate IsDigit(c: char)
  {
    '0' <= c <= '9'
  }

  function DigitValue(c: char): (d: nat)
    requires IsDigit(c)
    ensures d < 10
  {
    c as int - '0' as int
  }

  /** `s[i]` of a C string: NUL at and past the end. */
  function CharAt(s: seq<char>, i: nat): char
  {
    if i < |s| then s[i] else '\0'
  }

  predicate AllDigits(s: seq<char>)
  {
    forall k :: 0 <= k < |s| ==> IsDigit(s[k])
  }

  /** The value of a string of decimal digits, most significant first. */
  function DecimalValue(digits: seq<char>): nat
    requires AllDigits(digits)
  {
    if digits == [] then 0
    else DecimalValue(digits[..|digits| - 1]) * 10 + DigitValue(digits[|digits| - 1])
  }

  /** Where the run of digits that starts at `i` ends: the first index at
      or after `i` that is not a digit. */
  function DigitRunEnd(s: seq<char>, i: nat): (e: nat)
    requires i <= |s|
    ensures i <= e <= |s|
    ensures forall k :: i <= k < e ==> IsDigit(s[k])
    ensures e == |s| || !IsDigit(s[e])
    decreases |s| - i
  {
    if i < |s| && IsDigit(s[i]) then DigitRunEnd(s, i + 1) else i
  }

  /** The rejected shape: a '0' followed by another digit. */
  predicate LeadingZero(s: seq<char>, i: nat)
  {
    CharAt(s, i) == '0' && IsDigit(CharAt(s, i + 1))
  }

  /** A parsed component: the number stored in `*number` and the index of
      the first character after it, the pointer that is returned. */
  datatype Parsed = Parsed(number: int32, rest: nat)

  /** `int` arithmetic that wraps around: the two's-complement value
      congruent to `x` modulo 2^32. */
  function Wrap32(x: int): (w: int32)
    ensures (w - x) % 0x1_0000_0000 == 0
  {
    var m := x % 0x1_0000_0000;
    if m < 0x8000_0000 then m else m - 0x1_0000_0000
  }

  /** Congruent arguments wrap to the same value. */
  lemma Wrap32Congruent(x: int, y: int)
    requires (x - y) % 0x1_0000_0000 == 0
    ensures Wrap32(x) == Wrap32(y)
  {
    var n := 0x1_0000_0000;
    DivModUnique(x - y, n, (x - y) / n, 0);
    DivModUnique(x, n, y / n + (x - y) / n, y % n);
  }

  /** One wrapped step `val *= 10; val += d` keeps `val` the wrapped
      value of the unbounded one. */
  lemma WrapStep(val: int, exact: int, d: int)
    requires val == Wrap32(exact)
    ensures Wrap32(Wrap32(val * 10) + d) == Wrap32(exact * 10 + d)
  {
    var n := 0x1_0000_0000;
    var k := (val - exact) / n;
    DivModUnique(val - exact, n, k, 0);
    var j := (Wrap32(val * 10) - val * 10) / n;
    DivModUnique(Wrap32(val * 10) - val * 10, n, j, 0);
    assert Wrap32(val * 10) + d - (exact * 10 + d) == (j + 10 * k) * n;
    DivModUnique(Wrap32(val * 10) + d - (exact * 10 + d), n, j + 10 * k, 0);
    Wrap32Congruent(Wrap32(val * 10) + d, exact * 10 + d);
  }

  /** Taking one more digit into the run. */
  lemma DecimalValueStep(s: seq<char>, start: nat, i: nat)
    requires start <= i < |s| && AllDigits(s[start..i]) && IsDigit(s[i])
    ensures AllDigits(s[start..i + 1])
    ensures DecimalValue(s[start..i + 1]) == DecimalValue(s[start..i]) * 10 + DigitValue(s[i])
  {
    assert s[start..i + 1] == s[start..i] + [s[i]];
    DecimalValueSnoc(s[start..i], s[i]);
  }

  /** Appending one digit. */
  lemma DecimalValueSnoc(digits: seq<char>, c: char)
    requires AllDigits(digits) && IsDigit(c)
    ensures AllDigits(digits + [c])
    ensures DecimalValue(digits + [c]) == DecimalValue(digits) * 10 + DigitValue(c)
  {
    assert (digits + [c])[..|digits|] == digits;
  }

  // -------------------------------------------------------------------
  // parse_version_number as written: `val *= 10; val += *s - '0'` on an
  // `int` that wraps around, and failure only when the final value is
  // negative.

  /** What `parse_version_number` computes, as written. */
  function NumberAsWritten(s: seq<char>, start: nat): (r: Option<Parsed>)
    requires start <= |s|
  {
    if LeadingZero(s, start) then None
    else
      var e := DigitRunEnd(s, start);
      var val := Wrap32(DecimalValue(s[start..e]));
      if val < 0 then None else Some(Parsed(val, e))
  }

  /** The loop of `parse_version_number`, as written. */
  method ParseVersionNumberAsWritten(s: seq<char>, start: nat) returns (r: Option<Parsed>)
    requires start <= |s|
    ensures r == NumberAsWritten(s, start)
  {
    if CharAt(s, start) == '0' && IsDigit(CharAt(s, start + 1)) {
      return None;
    }
    var val: int32 := 0;
    var i := start;
    while i < |s| && IsDigit(s[i])
      invariant start <= i <= |s|
      invariant AllDigits(s[start..i])
      invariant DigitRunEnd(s, i) == DigitRunEnd(s, start)
      invariant val == Wrap32(DecimalValue(s[start..i]))
      decreases |s| - i
    {
      var d := DigitValue(s[i]);
      DecimalValueStep(s, start, i);
      WrapStep(val, DecimalValue(s[start..i]), d);
      val := Wrap32(val * 10);
      val := Wrap32(val + d);
      i := i + 1;
    }
    if val < 0 {
      return None;
    }
    return Some(Parsed(val, i));
  }

  // -------------------------------------------------------------------
  // parse_version_number as intended: a component fails when its decimal
  // value does not fit in an `int`.

  /** What `parse_version_number` is meant to compute. */
  function Number(s: seq<char>, start: nat): (r: Option<Parsed>)
    requires start <= |s|
    ensures LeadingZero(s, start) ==> r.None?
    ensures r.Some? ==> start <= r.value.rest <= |s| && 0 <= r.value.number
    ensures r.Some? ==> r.value.rest == |s| || !IsDigit(s[r.value.rest])
    ensures r.Some? ==> AllDigits(s[start..r.value.rest]) && r.value.number == DecimalValue(s[start..r.value.rest])
    ensures r.None? ==> LeadingZero(s, start) || DecimalValue(s[start..DigitRunEnd(s, start)]) > INT_MAX
  {
    if LeadingZero(s, start) then None
    else
      var e := DigitRunEnd(s, start);
      var val := DecimalValue(s[start..e]);
      if val > INT_MAX then None else Some(Parsed(val, e))
  }

  /** A longer run of digits has at least the value of its prefix. */
  lemma {:induction false} DecimalValuePrefix(digits: seq<char>, k: nat)
    requires AllDigits(digits) && k <= |digits|
    ensures DecimalValue(digits[..k]) <= DecimalValue(digits)
    decreases |digits|
  {
    if k < |digits| {
      var init := digits[..|digits| - 1];
      assert init[..k] == digits[..k];
      DecimalValuePrefix(init, k);
    } else {
      assert digits[..k] == digits;
    }
  }

  /** `parse_version_number` with the overflow test made before each step,
      so that `val` never leaves the range of `int`. */
  method ParseVersionNumber(s: seq<char>, start: nat) returns (r: Option<Parsed>)
    requires start <= |s|
    ensures r == Number(s, start)
  {
    if CharAt(s, start) == '0' && IsDigit(CharAt(s, start + 1)) {
      return None;
    }
    var val: int32 := 0;
    var i := start;
    while i < |s| && IsDigit(s[i])
      invariant start <= i <= |s|
      invariant AllDigits(s[start..i])
      invariant DigitRunEnd(s, i) == DigitRunEnd(s, start)
      invariant 0 <= val == DecimalValue(s[start..i])
      decreases |s| - i
    {
      var d := DigitValue(s[i]);
      DecimalValueStep(s, start, i);
      if val > (INT_MAX - d) / 10 {
        ghost var e := DigitRunEnd(s, start);
        assert s[start..e][..i + 1 - start] == s[start..i + 1];
        DecimalValuePrefix(s[start..e], i + 1 - start);
        return None;
      }
      val := val * 10 + d;
      i := i + 1;
    }
    return Some(Parsed(val, i));
  }

  // -------------------------------------------------------------------
  // parse_version_string

  /** The three numeric components and the index where the patch level
      starts. */
  datatype VersionParts = VersionParts(major: int32, minor: int32, micro: int32, patchLevel: nat)

  /** What `parse_version_string` computes: three components, each of the
      first two followed by a '.', and then whatever follows the micro
      number. */
  function VersionOf(s: seq<char>): (r: Option<VersionParts>)
    ensures r.Some? ==> r.value.patchLevel <= |s|
    ensures r.Some? ==> r.value.patchLevel == |s| || !IsDigit(s[r.value.patchLevel])
    ensures r.Some? ==> 0 <= r.value.major && 0 <= r.value.minor && 0 <= r.value.micro
  {
    match Number(s, 0)
    case None => None
    case Some(major) =>
      if CharAt(s, major.rest) != '.' then None
      else
        match Number(s, major.rest + 1)
        case None => None
        case Some(minor) =>
          if CharAt(s, minor.rest) != '.' then None
          else
            match Number(s, minor.rest + 1)
            case None => None
            case Some(micro) => Some(VersionParts(major.number, minor.number, micro.number, micro.rest))
  }

  method ParseVersionString(s: seq<char>) returns (r: Option<VersionParts>)
    ensures r == VersionOf(s)
  {
    var major := ParseVersionNumber(s, 0);
    if major.None? || CharAt(s, major.value.rest) != '.' {
      return None;
    }
    var minor := ParseVersionNumber(s, major.value.rest + 1);
    if minor.None? || CharAt(s, minor.value.rest) != '.' {
      return None;
    }
    var micro := ParseVersionNumber(s, minor.value.rest + 1);
    if micro.None? {
      return None;
    }
    return Some(VersionParts(major.value.number, minor.value.number, micro.value.number, micro.value.rest));
  }

  // -------------------------------------------------------------------
  // The inverse: decimal rendering without leading zeros.

  /** The decimal digits of `n`, without leading zeros. */
  function Render(n: nat): (r: seq<char>)
    ensures |r| >= 1 && AllDigits(r)
  {
    var last := ['0' + (n % 10) as char];
    if n < 10 then last else Render(n / 10) + last
  }

  /** Rendering has no leading zero and reads back as `n`. */
  lemma {:induction false} RenderValue(n: nat)
    ensures DecimalValue(Render(n)) == n
    ensures |Render(n)| > 1 ==> Render(n)[0] != '0'
  {
    if n >= 10 {
      RenderValue(n / 10);
      var r := Render(n);
      assert r[..|r| - 1] == Render(n / 10);
    }
  }

  /** A rendered number at index `i`, not followed by a digit, is a whole
      run of digits without a leading zero, whose value is the number. */
  lemma {:induction false} RenderedRun(s: seq<char>, i: nat, n: nat)
    requires i + |Render(n)| <= |s| && s[i..i + |Render(n)|] == Render(n)
    requires i + |Render(n)| == |s| || !IsDigit(s[i + |Render(n)|])
    ensures DigitRunEnd(s, i) == i + |Render(n)|
    ensures DecimalValue(s[i..i + |Render(n)|]) == n
    ensures !LeadingZero(s, i)
  {
    var r := Render(n);
    var e := i + |r|;
    RenderValue(n);
    assert forall k :: i <= k < e ==> IsDigit(s[k]) by {
      forall k | i <= k < e ensures IsDigit(s[k]) {
        assert s[k] == r[k - i];
      }
    }
    if |r| == 1 {
      assert CharAt(s, i + 1) == CharAt(s, e);
    } else {
      assert s[i] == r[0];
    }
  }

  /** So such a number parses back and stops right after itself. */
  lemma {:induction false} NumberOfRendered(s: seq<char>, i: nat, n: nat)
    requires n <= INT_MAX
    requires i + |Render(n)| <= |s| && s[i..i + |Render(n)|] == Render(n)
    requires i + |Render(n)| == |s| || !IsDigit(s[i + |Render(n)|])
    ensures Number(s, i) == Some(Parsed(n, i + |Render(n)|))
  {
    RenderedRun(s, i, n);
  }

  /** As written, a number above `INT_MAX` whose residue modulo 2^32 is below
      2^31 wraps to that residue and is accepted, where the intended parser
      rejects it. */
  lemma {:induction false} AsWrittenAcceptsWrapped(n: nat)
    requires n > INT_MAX && n % 0x1_0000_0000 < 0x8000_0000
    ensures NumberAsWritten(Render(n), 0) == Some(Parsed(n % 0x1_0000_0000, |Render(n)|))
    ensures Number(Render(n), 0) == None
  {
    assert Render(n)[0..|Render(n)|] == Render(n);
    RenderedRun(Render(n), 0, n);
  }

  /** For instance "4294967297", the rendering of 2^32 + 1, is accepted as
      the number 1. */
  lemma AsWrittenAcceptsOverflow()
    ensures NumberAsWritten(Render(0x1_0000_0001), 0) == Some(Parsed(1, |Render(0x1_0000_0001)|))
    ensures Number(Render(0x1_0000_0001), 0) == None
  {
    AsWrittenAcceptsWrapped(0x1_0000_0001);
  }

  /** Parsing a rendered `<major>.<minor>.<micro><patchlevel>` gives back
      its three numbers and the start of the patch level. */
  lemma {:induction false} VersionOfRendered(major: nat, minor: nat, micro: nat, patchLevel: seq<char>)
    requires major <= INT_MAX && minor <= INT_MAX && micro <= INT_MAX
    requires patchLevel == [] || !IsDigit(patchLevel[0])
    ensures var prefix := Render(major) + "." + Render(minor) + "." + Render(micro);
            VersionOf(prefix + patchLevel) == Some(VersionParts(major, minor, micro, |prefix|))
  {
    var r1, r2, r3 := Render(major), Render(minor), Render(micro);
    SliceFacts(r1, r2, r3, patchLevel);
    var a, b := |r1|, |r1| + 1 + |r2|;
    VersionOfPieces(r1 + "." + r2 + "." + r3 + patchLevel, a, b, b + 1 + |r3|, major, minor, micro);
  }

  /** The same, for any string in which the three renderings sit at the
      given places. */
  lemma {:induction false} VersionOfPieces(s: seq<char>, a: nat, b: nat, c: nat, major: nat, minor: nat, micro: nat)
    requires major <= INT_MAX && minor <= INT_MAX && micro <= INT_MAX
    requires a == |Render(major)| && b == a + 1 + |Render(minor)| && c == b + 1 + |Render(micro)|
    requires c <= |s|
    requires s[0..a] == Render(major) && s[a] == '.'
    requires s[a + 1..b] == Render(minor) && s[b] == '.'
    requires s[b + 1..c] == Render(micro)
    requires c == |s| || !IsDigit(s[c])
    ensures VersionOf(s) == Some(VersionParts(major, minor, micro, c))
  {
    assert a < b < c;
    NumberOfRendered(s, 0, major);
    assert Number(s, 0) == Some(Parsed(major, a));
    NumberOfRendered(s, a + 1, minor);
    assert Number(s, a + 1) == Some(Parsed(minor, b));
    NumberOfRendered(s, b + 1, micro);
    assert Number(s, b + 1) == Some(Parsed(micro, c));
    VersionOfComponents(s, a, b, c, major, minor, micro);
  }

  /** Three components that parse, the first two each followed by '.'. */
  lemma VersionOfComponents(s: seq<char>, a: nat, b: nat, c: nat, major: int32, minor: int32, micro: int32)
    requires a < b < c <= |s|
    requires Number(s, 0) == Some(Parsed(major, a)) && s[a] == '.'
    requires Number(s, a + 1) == Some(Parsed(minor, b)) && s[b] == '.'
    requires Number(s, b + 1) == Some(Parsed(micro, c))
    ensures VersionOf(s) == Some(VersionParts(major, minor, micro, c))
  {
  }

  /** Conversely, `parse_version_string` succeeds only when each of the
      three components parses, a '.' follows the major and the minor
      number, and the result is made of those components. */
  lemma VersionOfSucceeds(s: seq<char>)
    requires VersionOf(s).Some?
    ensures Number(s, 0).Some? && CharAt(s, Number(s, 0).value.rest) == '.'
    ensures var major := Number(s, 0).value;
            && Number(s, major.rest + 1).Some?
            && CharAt(s, Number(s, major.rest + 1).value.rest) == '.'
    ensures var major := Number(s, 0).value;
            var minor := Number(s, major.rest + 1).value;
            && Number(s, minor.rest + 1).Some?
            && VersionOf(s).value
               == VersionParts(major.number, minor.number, Number(s, minor.rest + 1).value.number,
                               Number(s, minor.rest + 1).value.rest)
  {
  }

  /** An empty component is read as 0: "1..2" is version 1.0.2, as nothing
      in the digit loop requires a digit before the '.'. */
  lemma EmptyComponent()
    ensures VersionOf("1..2") == Some(VersionParts(1, 0, 2, 4))
  {
    var s := "1..2";
    assert s[0..1] == "1" && s[2..2] == [] && s[3..4] == "2";
    assert DecimalValue("1") == 1 && DecimalValue("2") == 2;
  }

  /** Where the pieces of `r1.r2.r3patchLevel` sit. */
  lemma SliceFacts(r1: seq<char>, r2: seq<char>, r3: seq<char>, patchLevel: seq<char>)
    ensures var s := r1 + "." + r2 + "." + r3 + patchLevel;
            var a, b, c := |r1|, |r1| + 1 + |r2|, |r1| + 1 + |r2| + 1 + |r3|;
            && |s| == c + |patchLevel|
            && s[0..a] == r1 && s[a] == '.'
            && s[a + 1..b] == r2 && s[b] == '.'
            && s[b + 1..c] == r3
            && (c < |s| ==> s[c] == patchLevel[0])
  {
  }
}
