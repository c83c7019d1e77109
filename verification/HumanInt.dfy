/** Printing of integers with group separators, over exact 64-bit integers.  Source: reportutil/reportutil.go. */
module HumanInt {

  newtype int64 = x: int | -0x8000_0000_0000_0000 <= x < 0x8000_0000_0000_0000
  newtype uint64 = x: int | 0 <= x < 0x1_0000_0000_0000_0000

  function Digit(d: nat): char
    requires d < 10
  {
    '0' + d as char
  }

  predicate IsDigit(c: char) {
    '0' <= c <= '9'
  }

  ghost predicate Digits(s: string) {
    s != [] && forall i | 0 <= i < |s| :: IsDigit(s[i])
  }

  function Decimal(n: nat): string {
    if n < 10 then [Digit(n)] else Decimal(n / 10) + [Digit(n % 10)]
  }

  // Reading back.

  function ReadNat(s: string): int
    requires forall i | 0 <= i < |s| :: IsDigit(s[i])
  {
    if s == [] then 0 else ReadNat(s[..|s| - 1]) * 10 + (s[|s| - 1] as int - '0' as int)
  }

  function Strip(s: string): string {
    if s == [] then [] else Strip(s[..|s| - 1]) + if s[|s| - 1] == ',' then [] else [s[|s| - 1]]
  }

  /** The number a decimal with an optional sign stands for, once its commas are removed. */
  ghost predicate Reads(s: string, n: int) {
    if s != [] && s[0] == '-' then Digits(Strip(s[1..])) && n == -ReadNat(Strip(s[1..]))
    else Digits(Strip(s)) && n == ReadNat(Strip(s))
  }

  lemma {:induction false} DecimalReads(n: nat)
    ensures Digits(Decimal(n)) && ReadNat(Decimal(n)) == n
    ensures n > 0 ==> Decimal(n)[0] != '0'
  {
    if n >= 10 {
      DecimalReads(n / 10);
      assert Decimal(n)[..|Decimal(n)| - 1] == Decimal(n / 10);
    }
  }

  lemma AppendDigit(s: string, c: char)
    requires IsDigit(c) && forall i | 0 <= i < |s| :: IsDigit(s[i])
    ensures ReadNat(s + [c]) == 10 * ReadNat(s) + (c as int - '0' as int) && 0 <= c as int - '0' as int < 10
  {
    assert (s + [c])[..|s|] == s;
  }

  /** A group of three digits stands for less than a thousand, and makes what is before it a thousand times as much. */
  lemma GroupsAreThousands(head: string, a: char, b: char, c: char)
    requires IsDigit(a) && IsDigit(b) && IsDigit(c) && forall i | 0 <= i < |head| :: IsDigit(head[i])
    ensures ReadNat(head + [a] + [b] + [c]) == 1000 * ReadNat(head) + ReadNat([a] + [b] + [c])
    ensures 0 <= ReadNat([a] + [b] + [c]) < 1000
  {
    AppendDigit(head, a);
    AppendDigit(head + [a], b);
    AppendDigit(head + [a] + [b], c);
    assert [] + [a] == [a];
    AppendDigit([], a);
    AppendDigit([a], b);
    AppendDigit([a] + [b], c);
  }

  // Groups of three.

  function Commas(s: string): string {
    if |s| <= 3 then s else Commas(s[..|s| - 3]) + "," + s[|s| - 3..]
  }

  /** Position `i` of `n` characters is a comma: the fourth, eighth and so on from the right. */
  predicate IsCommaAt(i: nat, n: nat)
    requires i < n
  {
    (n - 1 - i) % 4 == 3
  }

  /** Counted from the right, every fourth character is a comma and the others are digits; the first is a digit. */
  ghost predicate Grouped(s: string) {
    && s != [] && IsDigit(s[0])
    && forall i | 0 <= i < |s| :: if IsCommaAt(i, |s|) then s[i] == ',' else IsDigit(s[i])
  }

  /** Four more characters at the right do not move the commas, and bring one. */
  lemma CommasStay(i: nat, n: nat)
    requires i < n + 4
    ensures i < n ==> (IsCommaAt(i, n + 4) <==> IsCommaAt(i, n))
    ensures i >= n ==> (IsCommaAt(i, n + 4) <==> i == n)
  {
  }

  lemma {:induction false} CommasGroup(s: string)
    requires Digits(s)
    ensures Grouped(Commas(s))
    decreases |s|
  {
    if |s| > 3 {
      var head, tail := s[..|s| - 3], s[|s| - 3..];
      CommasGroup(head);
      OneMoreGroup(Commas(head), tail);
      assert Commas(s) == Commas(head) + "," + tail;
    }
  }

  lemma OneMoreGroup(head: string, tail: string)
    requires Grouped(head) && Digits(tail) && |tail| == 3
    ensures Grouped(head + "," + tail)
  {
    var all := head + "," + tail;
    forall i | 0 <= i < |all|
      ensures if IsCommaAt(i, |all|) then all[i] == ',' else IsDigit(all[i])
    {
      CommasStay(i, |head|);
      if i < |head| {
        assert all[i] == head[i];
      } else if i > |head| {
        assert all[i] == tail[i - |head| - 1];
      }
    }
  }

  lemma {:induction false} StripConcat(a: string, b: string)
    ensures Strip(a + b) == Strip(a) + Strip(b)
  {
    if b == [] {
      assert a + b == a;
    } else {
      StripConcat(a, b[..|b| - 1]);
      assert (a + b)[..|a + b| - 1] == a + b[..|b| - 1];
    }
  }

  lemma {:induction false} StripDigits(s: string)
    requires forall i | 0 <= i < |s| :: IsDigit(s[i])
    ensures Strip(s) == s
  {
    if s != [] {
      StripDigits(s[..|s| - 1]);
    }
  }

  /** Removing the commas undoes the grouping. */
  lemma {:induction false} StripCommas(s: string)
    requires Digits(s)
    ensures Strip(Commas(s)) == s
  {
    if |s| <= 3 {
      StripDigits(s);
    } else {
      var head, tail := s[..|s| - 3], s[|s| - 3..];
      StripCommas(head);
      StripDigits(tail);
      assert Strip(",") == "" by { assert ","[..0] == ""; }
      StripConcat(Commas(head), ",");
      StripConcat(Commas(head) + ",", tail);
      assert Commas(s) == Commas(head) + "," + tail;
    }
  }

  lemma CommasSnoc(s: string, i: nat)
    requires 0 < i && i + 3 <= |s|
    ensures Commas(s[..i + 3]) == Commas(s[..i]) + "," + s[i..i + 3]
  {
    assert s[..i + 3][..i] == s[..i] && s[..i + 3][i..] == s[i..i + 3];
  }

  /** The groups from left to right, as the code writes them. */
  method Group(s: string) returns (out: string)
    requires |s| > 3
    ensures out == Commas(s)
  {
    out := "";
    var first := |s| % 3;
    if first > 0 {
      out := out + s[..first];
      if |s| > first {
        out := out + ",";
      }
    }
    var i := first;
    while i < |s|
      invariant i <= |s| && (|s| - i) % 3 == 0
      invariant out == if i == 0 then "" else if i < |s| then Commas(s[..i]) + "," else Commas(s)
    {
      if i > 0 {
        CommasSnoc(s, i);
      }
      out := out + s[i..i + 3];
      if i + 3 < |s| {
        out := out + ",";
      }
      i := i + 3;
      assert i == |s| ==> s[..i] == s;
    }
  }

  /** The magnitude, without overflow at the least value. */
  function Magnitude(n: int64): (m: uint64)
    ensures m as int == if n < 0 then -(n as int) else n as int
  {
    if n < 0 then (-(n + 1)) as uint64 + 1 else n as uint64
  }

  /** For every 64-bit integer, the least included: the text reads back as the number, its digits are grouped in
      threes from the right, and it has no superfluous zero. */
  method HumanInt(n: int64) returns (text: string)
    ensures Reads(text, n as int)
    ensures Grouped(if n < 0 then text[1..] else text)
    ensures n < 0 <==> text != [] && text[0] == '-'
    ensures n > 0 ==> text[0] != '0'
    ensures n == 0 ==> text == "0"
    ensures n < 0 ==> |text| > 1 && text[1] != '0'
  {
    var neg := n < 0;
    var s := Decimal(Magnitude(n) as nat);
    DecimalReads(Magnitude(n) as nat);
    StripCommas(s);
    CommasGroup(s);
    var body := s;
    if |s| > 3 {
      body := Group(s);
    }
    assert body == Commas(s);
    FirstOfCommas(s);
    if neg {
      text := "-" + body;
      assert text[1..] == body;
    } else {
      text := body;
    }
  }

  lemma {:induction false} FirstOfCommas(s: string)
    requires s != []
    ensures Commas(s) != [] && Commas(s)[0] == s[0]
  {
    if |s| > 3 {
      FirstOfCommas(s[..|s| - 3]);
    }
  }
}
