/** Python string operations on ASCII text, as far as the tag and marker code uses them. */
module Text {
  import opened Wrappers

  // What str.strip() removes from an ASCII string.
  predicate IsSpace(c: char) {
    var k := c as int;
    k == 32 || 9 <= k <= 13 || 28 <= k <= 31
  }

  predicate IsDigit(c: char) {
    '0' <= c <= '9'
  }

  // str.strip()
  function Strip(s: string): string {
    if s != "" && IsSpace(s[0]) then Strip(s[1..])
    else if s != "" && IsSpace(s[|s| - 1]) then Strip(s[..|s| - 1])
    else s
  }

  // Nothing to remove at either end.
  predicate Stripped(s: string) {
    s != "" ==> !IsSpace(s[0]) && !IsSpace(s[|s| - 1])
  }

  lemma {:induction false} StripIsStripped(s: string)
    ensures Stripped(Strip(s)) && Strip(Strip(s)) == Strip(s)
  {
    if s != "" && IsSpace(s[0]) {
      StripIsStripped(s[1..]);
    } else if s != "" && IsSpace(s[|s| - 1]) {
      StripIsStripped(s[..|s| - 1]);
    }
  }

  // Stripping takes white space off the ends, and all of it.
  lemma {:induction false} StripTakesEnds(s: string) returns (i: nat, j: nat)
    ensures i <= j <= |s| && Strip(s) == s[i..j] && Stripped(s[i..j])
    ensures forall k :: 0 <= k < i || j <= k < |s| ==> IsSpace(s[k])
  {
    if s != "" && IsSpace(s[0]) {
      i, j := StripTakesEnds(s[1..]);
      assert s[1..][i..j] == s[i + 1..j + 1];
      forall k | 1 <= k < i + 1 || j + 1 <= k < |s| ensures IsSpace(s[k]) {
        assert s[1..][k - 1] == s[k];
      }
      i, j := i + 1, j + 1;
    } else if s != "" && IsSpace(s[|s| - 1]) {
      i, j := StripTakesEnds(s[..|s| - 1]);
      assert s[..|s| - 1][i..j] == s[i..j];
      forall k | 0 <= k < i || j <= k < |s| - 1 ensures IsSpace(s[k]) {
        assert s[..|s| - 1][k] == s[k];
      }
    } else {
      i, j := 0, |s|;
      assert s[0..|s|] == s;
    }
  }

  predicate StartsWith(s: string, prefix: string) {
    prefix <= s
  }

  // ---- Decimal integers -------------------------------------------------

  function DigitChar(d: nat): char
    requires d < 10
  {
    '0' + d as char
  }

  // str(n)
  function Decimal(n: nat): (s: string)
    ensures s != "" && forall c <- s :: IsDigit(c)
  {
    if n < 10 then [DigitChar(n)] else Decimal(n / 10) + [DigitChar(n % 10)]
  }

  // A digit string as int() reads it, single underscores between digits allowed.
  function DigitsValue(s: string): Option<nat> {
    if s == "" || !IsDigit(s[|s| - 1]) then None
    else
      var d := (s[|s| - 1] - '0') as nat;
      if |s| == 1 then Some(d)
      else
        var front := if s[|s| - 2] == '_' then s[..|s| - 2] else s[..|s| - 1];
        match DigitsValue(front)
        case None => None
        case Some(v) => Some(v * 10 + d)
  }

  // int(text): None stands for the ValueError.
  function PyInt(text: string): Option<int> {
    var s := Strip(text);
    if s != "" && (s[0] == '-' || s[0] == '+') then
      match DigitsValue(s[1..])
      case None => None
      case Some(v) => var i: int := v; Some(if s[0] == '-' then -i else i)
    else
      match DigitsValue(s)
      case None => None
      case Some(v) => var i: int := v; Some(i)
  }

  lemma {:induction false} DecimalValue(n: nat)
    ensures DigitsValue(Decimal(n)) == Some(n)
  {
    if n >= 10 {
      var s := Decimal(n);
      var front := Decimal(n / 10);
      DecimalValue(n / 10);
      assert s[..|s| - 1] == front;
      assert s[|s| - 2] == front[|front| - 1];
      assert IsDigit(s[|s| - 2]);
    }
  }

  lemma PyIntOfDecimal(n: nat)
    ensures PyInt(Decimal(n)) == Some(n)
  {
    var s := Decimal(n);
    assert IsDigit(s[0]) && IsDigit(s[|s| - 1]);
    DecimalValue(n);
  }

}
