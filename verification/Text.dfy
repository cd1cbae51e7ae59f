/** Words of a line the way awk's default field splitting sees them, the decimal rendering of a
    counter the way the shell prints it, and the part of a text that is left of it as a C string. */
module Text {

  predicate IsBlank(c: char) {
    c == ' ' || c == '\t'
  }

  function SkipBlanks(s: string): string {
    if s != [] && IsBlank(s[0]) then SkipBlanks(s[1..]) else s
  }

  function FieldLength(s: string): (n: nat)
    ensures n <= |s|
  {
    if s == [] || IsBlank(s[0]) then 0 else 1 + FieldLength(s[1..])
  }

  /** `awk '{print $1}'` */
  function FirstField(s: string): string {
    var t := SkipBlanks(s);
    t[..FieldLength(t)]
  }

  /** `awk '{print $2}'` */
  function SecondField(s: string): string {
    var t := SkipBlanks(s);
    FirstField(t[FieldLength(t)..])
  }

  ghost predicate IsWord(s: string) {
    s != [] && forall i :: 0 <= i < |s| ==> !IsBlank(s[i])
  }

  function Decimal(n: nat): string {
    if n < 10 then [Digit(n)] else Decimal(n / 10) + [Digit(n % 10)]
  }

  function Digit(d: nat): char
    requires d < 10
  {
    "0123456789"[d]
  }

  lemma {:induction false} DecimalIsWord(n: nat)
    ensures IsWord(Decimal(n))
  {
    if n >= 10 {
      DecimalIsWord(n / 10);
    }
  }

  lemma {:induction false} DecimalInjective(m: nat, n: nat)
    requires Decimal(m) == Decimal(n)
    ensures m == n
    decreases m
  {
    var a, b := Decimal(m), Decimal(n);
    assert Digit(m % 10) == a[|a| - 1] && Digit(n % 10) == b[|b| - 1];
    DecimalIsWord(m / 10);
    DecimalIsWord(n / 10);
    if m >= 10 && n >= 10 {
      assert Decimal(m / 10) == a[..|a| - 1] == b[..|b| - 1] == Decimal(n / 10);
      DecimalInjective(m / 10, n / 10);
    }
  }

  /** The number that a text of digits stands for. */
  function ValueOf(digits: string): int {
    if digits == [] then 0 else
    var last := |digits| - 1;
    10 * ValueOf(digits[..last]) + (digits[last] as int - '0' as int)
  }

  /** The rendering reads back as the number, has digits only, and no leading zero. */
  lemma {:induction false} DecimalReadsBack(n: nat)
    ensures ValueOf(Decimal(n)) == n
    ensures Decimal(n) != [] && forall i :: 0 <= i < |Decimal(n)| ==> '0' <= Decimal(n)[i] <= '9'
    ensures n > 0 ==> Decimal(n)[0] != '0'
  {
    if n < 10 {
      assert Decimal(n)[..0] == [];
    } else {
      DecimalReadsBack(n / 10);
      assert Decimal(n)[..|Decimal(n)| - 1] == Decimal(n / 10);
    }
  }

  lemma {:induction false} FieldLengthOfWord(w: string, rest: string)
    requires forall i :: 0 <= i < |w| ==> !IsBlank(w[i])
    requires rest == [] || IsBlank(rest[0])
    ensures FieldLength(w + rest) == |w|
  {
    if w == [] {
      assert w + rest == rest;
    } else {
      assert (w + rest)[1..] == w[1..] + rest;
      FieldLengthOfWord(w[1..], rest);
    }
  }

  lemma {:induction false} FieldHasNoBlank(s: string, i: nat)
    requires i < FieldLength(s)
    ensures !IsBlank(s[i])
  {
    if i > 0 {
      FieldHasNoBlank(s[1..], i - 1);
    }
  }

  /** A field, when there is one, is a word. */
  lemma FirstFieldIsWord(s: string)
    requires FirstField(s) != ""
    ensures IsWord(FirstField(s))
  {
    var t := SkipBlanks(s);
    forall i | 0 <= i < FieldLength(t)
      ensures !IsBlank(FirstField(s)[i])
    {
      FieldHasNoBlank(t, i);
    }
  }

  lemma {:induction false} BlanksSkipped(pre: string, s: string)
    requires forall i :: 0 <= i < |pre| ==> pre[i] == ' ' || pre[i] == '\t'
    ensures SkipBlanks(pre + s) == SkipBlanks(s)
  {
    if pre == [] {
      assert pre + s == s;
    } else {
      assert (pre + s)[1..] == pre[1..] + s;
      BlanksSkipped(pre[1..], s);
    }
  }

  /** The first field is the first stretch without spaces and tabs, wherever it stands. */
  lemma FirstFieldIs(pre: string, w: string, post: string)
    requires forall i :: 0 <= i < |pre| ==> pre[i] == ' ' || pre[i] == '\t'
    requires w != "" && ' ' !in w && '\t' !in w
    requires post == "" || post[0] == ' ' || post[0] == '\t'
    ensures FirstField(pre + w + post) == w
  {
    assert pre + w + post == pre + (w + post);
    BlanksSkipped(pre, w + post);
    assert SkipBlanks(w + post) == w + post;
    FieldLengthOfWord(w, post);
  }

  /** The second one likewise. */
  lemma SecondFieldIs(pre: string, w: string, mid: string, x: string, post: string)
    requires forall i :: 0 <= i < |pre| ==> pre[i] == ' ' || pre[i] == '\t'
    requires w != "" && ' ' !in w && '\t' !in w
    requires mid != "" && forall i :: 0 <= i < |mid| ==> mid[i] == ' ' || mid[i] == '\t'
    requires x != "" && ' ' !in x && '\t' !in x
    requires post == "" || post[0] == ' ' || post[0] == '\t'
    ensures SecondField(pre + w + mid + x + post) == x
  {
    var rest := mid + x + post;
    assert pre + w + mid + x + post == pre + (w + rest);
    BlanksSkipped(pre, w + rest);
    assert SkipBlanks(w + rest) == w + rest;
    FieldLengthOfWord(w, rest);
    assert (w + rest)[|w|..] == rest;
    FirstFieldIs(mid, x, post);
  }

  /** There is none exactly when the line has nothing but spaces and tabs. */
  lemma {:induction false} NoFieldIff(s: string)
    ensures FirstField(s) == "" <==> forall i :: 0 <= i < |s| ==> s[i] == ' ' || s[i] == '\t'
  {
    if s != [] && (s[0] == ' ' || s[0] == '\t') {
      NoFieldIff(s[1..]);
      assert s == [s[0]] + s[1..];
      assert FirstField(s) == FirstField(s[1..]);
    }
  }

  /** Two words joined by one space come back as the two fields of the line. */
  lemma FieldsOfTwoWords(a: string, b: string)
    requires IsWord(a) && IsWord(b)
    ensures FirstField(a + " " + b) == a
    ensures SecondField(a + " " + b) == b
  {
    var s := a + " " + b;
    assert s == a + (" " + b);
    assert SkipBlanks(s) == s;
    FieldLengthOfWord(a, " " + b);
    assert s[|a|..] == " " + b;
    assert (" " + b)[1..] == b;
    assert SkipBlanks(" " + b) == SkipBlanks(b) == b;
    FieldLengthOfWord(b, []);
    assert b + [] == b;
  }

  /** Where the first `c` is, or the length. */
  function Position(s: string, c: char): (n: nat)
    ensures n <= |s|
  {
    if s == [] || s[0] == c then 0 else 1 + Position(s[1..], c)
  }

  lemma {:induction false} PositionIsFirst(s: string, c: char)
    ensures var n := Position(s, c);
            && (forall i :: 0 <= i < n ==> s[i] != c)
            && (n < |s| ==> s[n] == c)
            && (c in s <==> n < |s|)
  {
    if s != [] && s[0] != c {
      PositionIsFirst(s[1..], c);
      assert s == [s[0]] + s[1..];
    }
  }

  const NUL: char := '\0'

  /** A C string ends at the first NUL. */
  function CString(s: string): (r: string)
    ensures r <= s && NUL !in r && (|r| < |s| ==> s[|r|] == NUL)
  {
    if s == [] || s[0] == NUL then [] else [s[0]] + CString(s[1..])
  }

  /** A text survives as a C string exactly when it has no NUL. */
  lemma {:induction false} CStringIsWholeIff(s: string)
    ensures CString(s) == s <==> NUL !in s
  {
    if s != [] && s[0] != NUL {
      CStringIsWholeIff(s[1..]);
      assert s == [s[0]] + s[1..];
    }
  }
}
