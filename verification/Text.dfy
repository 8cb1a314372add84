/** Python strings, the UTF-8 bytes in which the archive stores them, and the two comparisons that
must agree: `sorted` compares code points, strcmp compares bytes. */
module Text {
  import opened Orders

  /** str.split(separator) */
  function Split(s: string, separator: char): (parts: seq<string>)
    ensures parts != []
  {
    if s == [] then [[]]
    else
      var rest := Split(s[1..], separator);
      if s[0] == separator then [[]] + rest else [[s[0]] + rest[0]] + rest[1..]
  }

  /** separator.join(parts) */
  function Join(parts: seq<string>, separator: char): string {
    if parts == [] then []
    else if |parts| == 1 then parts[0]
    else parts[0] + [separator] + Join(parts[1..], separator)
  }

  function Take<T>(s: seq<T>, n: nat): seq<T> {
    if n < |s| then s[..n] else s
  }

  lemma {:induction false} JoinSplit(s: string, separator: char)
    ensures Join(Split(s, separator), separator) == s
  {
    if s != [] {
      JoinSplit(s[1..], separator);
      var rest := Split(s[1..], separator);
      if s[0] == separator {
        assert ([[]] + rest)[1..] == rest;
      } else {
        assert ([[s[0]] + rest[0]] + rest[1..])[1..] == rest[1..];
      }
      assert s == [s[0]] + s[1..];
    }
  }

  /** The part of `s` before its n-th separator; all of `s` when there are fewer. */
  function Before<T(==)>(s: seq<T>, separator: T, n: nat): (r: seq<T>)
    requires n > 0
    ensures r <= s
  {
    if s == [] then []
    else if s[0] != separator then [s[0]] + Before(s[1..], separator, n)
    else if n == 1 then []
    else [s[0]] + Before(s[1..], separator, n - 1)
  }

  lemma JoinPrepend(c: char, parts: seq<string>, separator: char)
    requires parts != []
    ensures Join([[c] + parts[0]] + parts[1..], separator) == [c] + Join(parts, separator)
  {
    var longer := [[c] + parts[0]] + parts[1..];
    assert longer[1..] == parts[1..];
    if |parts| > 1 {
      var rest := Join(parts[1..], separator);
      assert [c] + parts[0] + [separator] + rest == [c] + (parts[0] + [separator] + rest);
    }
  }

  lemma JoinAfterEmpty(parts: seq<string>, separator: char)
    requires parts != []
    ensures Join([[]] + parts, separator) == [separator] + Join(parts, separator)
  {
    assert ([[]] + parts)[1..] == parts;
  }

  /** Joining the first n pieces of a split cuts the string at its n-th separator. */
  lemma {:induction false} JoinTakeSplit(s: string, separator: char, n: nat)
    requires n > 0
    ensures Join(Take(Split(s, separator), n), separator) == Before(s, separator, n)
  {
    if s != [] {
      hide Join;
      var rest := Split(s[1..], separator);
      if s[0] != separator {
        JoinTakeSplit(s[1..], separator, n);
        JoinPrepend(s[0], Take(rest, n), separator);
        assert Take(Split(s, separator), n) == [[s[0]] + Take(rest, n)[0]] + Take(rest, n)[1..];
      } else if n > 1 {
        JoinTakeSplit(s[1..], separator, n - 1);
        JoinAfterEmpty(Take(rest, n - 1), separator);
        assert Take(Split(s, separator), n) == [[]] + Take(rest, n - 1);
      } else {
        assert Take(Split(s, separator), 1) == [[]];
        JoinOne([], separator);
      }
    } else {
      JoinOne([], separator);
    }
  }

  lemma JoinOne(s: string, separator: char)
    ensures Join([s], separator) == s
  {
  }

  // ---- UTF-8 ----

  type Bytes = seq<nat>

  function CodePoints(s: string): seq<nat> {
    seq(|s|, i requires 0 <= i < |s| => s[i] as nat)
  }

  lemma CodePointsInjective()
    ensures Injective(CodePoints)
  {
    forall s: string, t: string | CodePoints(s) == CodePoints(t) ensures s == t {
      assert |CodePoints(s)| == |CodePoints(t)|;
      forall i | 0 <= i < |s| ensures s[i] == t[i] {
        assert CodePoints(s)[i] == CodePoints(t)[i];
      }
    }
  }

  function EncodeChar(c: char): (bytes: Bytes)
    ensures 1 <= |bytes| <= 4
  {
    var n := c as nat;
    if n < 0x80 then [n]
    else if n < 0x800 then [0xc0 + n / 64, 0x80 + n % 64]
    else if n < 0x1_0000 then [0xe0 + n / 64 / 64, 0x80 + n / 64 % 64, 0x80 + n % 64]
    else [0xf0 + n / 64 / 64 / 64, 0x80 + n / 64 / 64 % 64, 0x80 + n / 64 % 64, 0x80 + n % 64]
  }

  /** The encoding is that of section 3 of RFC 3629: the shortest form, marked bytes, the bits in order. */
  lemma EncodeIsUtf8(c: char)
    ensures var b, n := EncodeChar(c), c as nat;
      if n <= 0x7f then |b| == 1 && b[0] == n
      else if n <= 0x7ff then
        |b| == 2 && 0xc0 <= b[0] < 0xe0 && IsTail(b[1]) && n == (b[0] - 0xc0) * 64 + (b[1] - 0x80)
      else if n <= 0xffff then
        && |b| == 3 && 0xe0 <= b[0] < 0xf0 && IsTail(b[1]) && IsTail(b[2])
        && n == (b[0] - 0xe0) * 4096 + (b[1] - 0x80) * 64 + (b[2] - 0x80)
      else
        && |b| == 4 && 0xf0 <= b[0] < 0xf8 && IsTail(b[1]) && IsTail(b[2]) && IsTail(b[3])
        && n == (b[0] - 0xf0) * 262144 + (b[1] - 0x80) * 4096 + (b[2] - 0x80) * 64 + (b[3] - 0x80)
  {
  }

  predicate IsTail(b: nat) { 0x80 <= b < 0xc0 }

  /** str.encode() */
  function Encode(s: string): Bytes {
    if s == [] then [] else EncodeChar(s[0]) + Encode(s[1..])
  }

  lemma {:induction false} EncodeConcat(s: string, t: string)
    ensures Encode(s + t) == Encode(s) + Encode(t)
  {
    if s == [] {
      assert s + t == t;
    } else {
      assert (s + t)[1..] == s[1..] + t;
      EncodeConcat(s[1..], t);
      assert EncodeChar(s[0]) + (Encode(s[1..]) + Encode(t)) == EncodeChar(s[0]) + Encode(s[1..]) + Encode(t);
    }
  }

  lemma {:induction false} LessAt(s: Bytes, t: Bytes, k: nat)
    requires k < |s| && k < |t| && s[..k] == t[..k] && s[k] < t[k]
    ensures Less(s, t)
  {
    if k > 0 {
      assert s[0] == s[..k][0] == t[..k][0] == t[0];
      assert s[1..][..k - 1] == s[..k][1..] == t[..k][1..] == t[1..][..k - 1];
      LessAt(s[1..], t[1..], k - 1);
    }
  }

  /** Characters that differ are told apart, in code-point order, within their own bytes. */
  lemma EncodeCharOrder(a: char, b: char, x: Bytes, y: Bytes)
    requires a < b
    ensures Less(EncodeChar(a) + x, EncodeChar(b) + y)
  {
    hide Less;
    var k := FirstDifference(a, b);
    var s, t := EncodeChar(a) + x, EncodeChar(b) + y;
    assert s[..k] == EncodeChar(a)[..k] && t[..k] == EncodeChar(b)[..k];
    LessAt(s, t, k);
  }

  lemma FirstDifference(a: char, b: char) returns (k: nat)
    requires a < b
    ensures k < |EncodeChar(a)| && k < |EncodeChar(b)|
    ensures EncodeChar(a)[..k] == EncodeChar(b)[..k] && EncodeChar(a)[k] < EncodeChar(b)[k]
  {
    var s, t := EncodeChar(a), EncodeChar(b);
    LeadByte(a, b);
    if s[0] != t[0] {
      k := 0;
    } else {
      hide EncodeChar;
      k := LaterDifference(a, b);
      forall i | 0 <= i < k ensures s[i] == t[i] {
      }
    }
  }

  /** The lead byte fixes the length, and longer encodings have greater lead bytes. */
  lemma LeadByte(a: char, b: char)
    requires a < b
    ensures EncodeChar(a)[0] <= EncodeChar(b)[0]
    ensures EncodeChar(a)[0] == EncodeChar(b)[0] ==> |EncodeChar(a)| == |EncodeChar(b)| > 1
  {
    var m, n := a as nat, b as nat;
    assert m < n;
    SixBits(m, n);
    SixBits(m / 64, n / 64);
    SixBits(m / 64 / 64, n / 64 / 64);
  }

  lemma LaterDifference(a: char, b: char) returns (k: nat)
    requires a < b && EncodeChar(a)[0] == EncodeChar(b)[0] && |EncodeChar(a)| == |EncodeChar(b)| > 1
    ensures 0 < k < |EncodeChar(a)|
    ensures forall i :: 0 <= i < k ==> EncodeChar(a)[i] == EncodeChar(b)[i]
    ensures EncodeChar(a)[k] < EncodeChar(b)[k]
  {
    var s, t := EncodeChar(a), EncodeChar(b);
    var m, n := a as nat, b as nat;
    assert m < n;
    SixBits(m, n);
    if |s| == 2 {
      k := 1;
    } else if |s| == 3 {
      SixBits(m / 64, n / 64);
      k := if s[1] != t[1] then 1 else 2;
    } else {
      SixBits(m / 64, n / 64);
      SixBits(m / 64 / 64, n / 64 / 64);
      k := if s[1] != t[1] then 1 else if s[2] != t[2] then 2 else 3;
    }
  }

  lemma SixBits(m: nat, n: nat)
    requires m <= n
    ensures m / 64 <= n / 64
    ensures m / 64 == n / 64 ==> m % 64 <= n % 64
    ensures m / 64 == n / 64 && m % 64 == n % 64 ==> m == n
  {
  }

  lemma {:induction false} LessAfterPrefix(p: Bytes, x: Bytes, y: Bytes)
    ensures Less(p + x, p + y) <==> Less(x, y)
  {
    if p == [] {
      assert p + x == x && p + y == y;
    } else {
      assert (p + x)[1..] == p[1..] + x && (p + y)[1..] == p[1..] + y;
      LessAfterPrefix(p[1..], x, y);
    }
  }

  /** Byte order of the encodings is code-point order (section 1 of RFC 3629). */
  lemma {:induction false} EncodeOrder(s: string, t: string)
    ensures Less(Encode(s), Encode(t)) <==> Less(CodePoints(s), CodePoints(t))
  {
    if s != [] && t != [] {
      assert CodePoints(s)[1..] == CodePoints(s[1..]) && CodePoints(t)[1..] == CodePoints(t[1..]);
      if s[0] < t[0] {
        EncodeCharOrder(s[0], t[0], Encode(s[1..]), Encode(t[1..]));
      } else if t[0] < s[0] {
        EncodeCharOrder(t[0], s[0], Encode(t[1..]), Encode(s[1..]));
        LessIsTotal(Encode(s), Encode(t));
      } else {
        LessAfterPrefix(EncodeChar(s[0]), Encode(s[1..]), Encode(t[1..]));
        EncodeOrder(s[1..], t[1..]);
      }
    }
  }

  /** Distinct strings have distinct encodings. */
  lemma EncodeInjective(s: string, t: string)
    requires Encode(s) == Encode(t)
    ensures s == t
  {
    EncodeOrder(s, t);
    EncodeOrder(t, s);
    LessIsTotal(Encode(s), Encode(s));
    LessIsTotal(CodePoints(s), CodePoints(t));
    CodePointsInjective();
  }

  /** Cutting at an ASCII separator commutes with encoding: its byte occurs only as itself. */
  lemma {:induction false} EncodeBefore(s: string, separator: char, n: nat)
    requires n > 0 && separator as nat < 0x80
    ensures Encode(Before(s, separator, n)) == Before(Encode(s), separator as nat, n)
  {
    if s != [] {
      var bytes, rest := EncodeChar(s[0]), Encode(s[1..]);
      if s[0] != separator {
        EncodeBefore(s[1..], separator, n);
        var tail := Before(s[1..], separator, n);
        assert ([s[0]] + tail)[1..] == tail;
        BeforeAfterPrefix(bytes, rest, separator as nat, n);
      } else {
        assert bytes == [separator as nat];
        assert (bytes + rest)[1..] == rest;
        if n > 1 {
          EncodeBefore(s[1..], separator, n - 1);
          var tail := Before(s[1..], separator, n - 1);
          assert ([s[0]] + tail)[1..] == tail;
        }
      }
    }
  }

  lemma {:induction false} BeforeAfterPrefix(p: Bytes, rest: Bytes, separator: nat, n: nat)
    requires n > 0 && separator !in p
    ensures Before(p + rest, separator, n) == p + Before(rest, separator, n)
  {
    if p == [] {
      assert p + rest == rest;
    } else {
      assert (p + rest)[1..] == p[1..] + rest;
      BeforeAfterPrefix(p[1..], rest, separator, n);
    }
  }
}
