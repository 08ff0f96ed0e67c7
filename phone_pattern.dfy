/**
 * The phone-number pattern `^(\+?\(?\d+-?\)?\s?){1}(\d+-?\s?)+$` as PCRE
 * applies it with `preg_match` (no modifiers): `\d` is an ASCII digit, `\s`
 * is space, \t, \n, \v, \f or \r, and `$` also matches before a final
 * newline.
 *
 * The pattern is given twice: once as the language it denotes (a head group
 * followed by one or more unit groups, with the split points chosen freely),
 * and once as a recursive recognizer that never backtracks.  The two are
 * proved equal, and the properties of accepted numbers are proved about the
 * recognizer.
 */
module PhonePattern {
  import opened PhpStrings

  // PCRE's `\s` without UTF mode is the same set as PHP's numeric whitespace.

  predicate AllDigits(w: string) {
    forall i :: 0 <= i < |w| ==> IsDigit(w[i])
  }

  /** The characters an accepted number can contain. */
  predicate PhoneChar(c: char) {
    IsDigit(c) || c == '+' || c == '(' || c == ')' || c == '-' || IsNumericSpace(c)
  }

  predicate IsLetter(c: char) {
    'a' <= c <= 'z' || 'A' <= c <= 'Z'
  }

  // ---------------------------------------------------------------------
  // The pattern as a language
  // ---------------------------------------------------------------------

  /** `\+?\(?` */
  predicate Lead(x: string) {
    x == "" || x == "+" || x == "(" || x == "+("
  }

  predicate DashParen(x: string) {
    x == "" || x == "-" || x == ")" || x == "-)"
  }

  /** `-?\)?\s?` */
  predicate HeadTail(t: string) {
    DashParen(t) || (t != [] && IsNumericSpace(t[|t| - 1]) && DashParen(t[..|t| - 1]))
  }

  /** `-?\s?` */
  predicate UnitTail(t: string) {
    t == "" || t == "-" ||
    (t != [] && IsNumericSpace(t[|t| - 1]) && (t[..|t| - 1] == "" || t[..|t| - 1] == "-"))
  }

  /** The head group `\+?\(?\d+-?\)?\s?`. */
  ghost predicate IsHead(w: string) {
    exists p, k :: 0 <= p < k <= |w| && Lead(w[..p]) && AllDigits(w[p..k]) && HeadTail(w[k..])
  }

  /** One unit group `\d+-?\s?`. */
  ghost predicate IsUnit(w: string) {
    exists k :: 0 < k <= |w| && AllDigits(w[..k]) && UnitTail(w[k..])
  }

  /** `(\d+-?\s?)+` */
  ghost predicate IsUnits(w: string)
    decreases |w|
  {
    IsUnit(w) || exists i :: 0 < i < |w| && IsUnit(w[..i]) && IsUnits(w[i..])
  }

  ghost predicate IsPhone(w: string) {
    exists i :: 0 < i < |w| && IsHead(w[..i]) && IsUnits(w[i..])
  }

  /** Anchored at both ends, `$` also before a final newline. */
  ghost predicate PatternMatches(s: string) {
    IsPhone(s) || (s != [] && s[|s| - 1] == '\n' && IsPhone(s[..|s| - 1]))
  }

  // ---------------------------------------------------------------------
  // The recognizer, reading positions of one string
  // ---------------------------------------------------------------------

  /** The end of the digit run that starts at i. */
  function RunEnd(w: string, i: nat): (j: nat)
    requires i <= |w|
    ensures i <= j <= |w|
    ensures forall m :: i <= m < j ==> IsDigit(w[m])
    ensures j < |w| ==> !IsDigit(w[j])
    decreases |w| - i
  {
    if i < |w| && IsDigit(w[i]) then RunEnd(w, i + 1) else i
  }

  /** w[i..] is one or more unit groups. */
  function UnitsFrom(w: string, i: nat): bool
    requires i <= |w|
    decreases |w| - i, 1
  {
    i < |w| && IsDigit(w[i]) && UnitRestFrom(w, RunEnd(w, i))
  }

  /** What may follow a maximal digit run ending at j inside the unit groups. */
  function UnitRestFrom(w: string, j: nat): bool
    requires j <= |w|
    decreases |w| - j, 0
  {
    j == |w| ||
    (IsNumericSpace(w[j]) && EndOrUnitsFrom(w, j + 1)) ||
    (w[j] == '-' &&
      (EndOrUnitsFrom(w, j + 1) || (j + 1 < |w| && IsNumericSpace(w[j + 1]) && EndOrUnitsFrom(w, j + 2))))
  }

  function EndOrUnitsFrom(w: string, j: nat): bool
    requires j <= |w|
    decreases |w| - j, 2
  {
    j == |w| || UnitsFrom(w, j)
  }

  /** The length of the optional `+` and `(` that open the number. */
  function LeadLength(w: string): (n: nat)
    ensures n <= |w| && Lead(w[..n])
    ensures forall m :: 0 <= m < n ==> w[m] == '+' || w[m] == '('
  {
    var p := if w != [] && w[0] == '+' then 1 else 0;
    if p < |w| && w[p] == '(' then p + 1 else p
  }

  /** Where the head group's optional `-`, `)` and space, starting at j, end. */
  function HeadTailEnd(w: string, j: nat): (e: nat)
    requires j <= |w|
    ensures j <= e <= |w| && e <= j + 3 && HeadTail(w[j..e])
  {
    var a := if j < |w| && w[j] == '-' then j + 1 else j;
    var b := if a < |w| && w[a] == ')' then a + 1 else a;
    var e := if b < |w| && IsNumericSpace(w[b]) then b + 1 else b;
    assert DashParen(w[j..b]) by {
      if b == j + 2 { assert w[j..b] == [w[j], w[j + 1]]; }
      else if b == j + 1 { assert w[j..b] == [w[j]]; }
    }
    assert e > b ==> w[j..e] == w[j..b] + [w[b]];
    e
  }

  /**
   * The head group followed by the unit groups.  Either the head's digits
   * stop inside the first run (then the units start one digit in), or they
   * take the whole run and its separator.
   */
  function Body(w: string): bool {
    var p := LeadLength(w);
    p < |w| && IsDigit(w[p]) &&
    var r := RunEnd(w, p);
    (r >= p + 2 && UnitsFrom(w, p + 1)) || UnitsFrom(w, HeadTailEnd(w, r))
  }

  /** `preg_match` of the phone pattern. */
  function Recognize(s: string): bool {
    Body(s) || (s != [] && s[|s| - 1] == '\n' && Body(s[..|s| - 1]))
  }

  // ---------------------------------------------------------------------
  // The recognizer accepts exactly the pattern's language
  // ---------------------------------------------------------------------

  lemma DigitsSlice(w: string, a: nat, b: nat)
    requires a <= b <= |w|
    ensures AllDigits(w[a..b]) <==> forall m :: a <= m < b ==> IsDigit(w[m])
  {
    if AllDigits(w[a..b]) {
      forall m | a <= m < b ensures IsDigit(w[m]) {
        assert w[m] == w[a..b][m - a];
      }
    }
  }

  /** A digit run from i to j that is followed by a non-digit ends at j. */
  lemma {:induction false} RunEndAt(w: string, i: nat, j: nat)
    requires i <= j <= |w| && (forall m :: i <= m < j ==> IsDigit(w[m]))
    requires j == |w| || !IsDigit(w[j])
    ensures RunEnd(w, i) == j
    decreases j - i
  {
    if i < j {
      RunEndAt(w, i + 1, j);
    }
  }

  /** Digits placed in front of the unit groups still form unit groups. */
  lemma {:induction false} UnitsFromDigitPrefix(w: string, i: nat, j: nat)
    requires i <= j <= |w| && (forall m :: i <= m < j ==> IsDigit(w[m])) && UnitsFrom(w, j)
    ensures UnitsFrom(w, i) && RunEnd(w, i) == RunEnd(w, j)
    decreases j - i
  {
    if i < j {
      UnitsFromDigitPrefix(w, i + 1, j);
    }
  }

  /** Digits w[i..r] and a unit separator w[r..e] make a unit group. */
  lemma UnitOf(w: string, i: nat, r: nat, e: nat)
    requires i < r <= e <= |w| && (forall m :: i <= m < r ==> IsDigit(w[m])) && UnitTail(w[r..e])
    ensures IsUnit(w[i..e])
  {
    var u := w[i..e];
    assert u[..r - i] == w[i..r] && u[r - i..] == w[r..e];
    DigitsSlice(w, i, r);
  }

  /** A unit group w[i..e] followed by the end or by unit groups. */
  lemma UnitsOf(w: string, i: nat, e: nat)
    requires i < e <= |w| && IsUnit(w[i..e]) && (e == |w| || IsUnits(w[e..]))
    ensures IsUnits(w[i..])
  {
    var u := w[i..];
    if e == |w| {
      assert u == w[i..e];
    } else {
      assert u[..e - i] == w[i..e] && u[e - i..] == w[e..];
    }
  }

  lemma {:induction false} UnitsSound(w: string, i: nat)
    requires i <= |w| && UnitsFrom(w, i)
    ensures IsUnits(w[i..])
    decreases |w| - i, 1
  {
    var r := RunEnd(w, i);
    assert UnitRestFrom(w, r);
    if r == |w| {
      UnitOf(w, i, r, r);
      UnitsOf(w, i, r);
    } else if (IsNumericSpace(w[r]) || w[r] == '-') && EndOrUnitsFrom(w, r + 1) {
      assert w[r..r + 1] == [w[r]] && w[r..r + 1][..0] == "";
      UnitsSoundAfter(w, i, r, r + 1);
    } else {
      assert w[r] == '-' && r + 1 < |w| && IsNumericSpace(w[r + 1]) && EndOrUnitsFrom(w, r + 2);
      assert w[r..r + 2] == [w[r], w[r + 1]] && w[r..r + 2][..1] == "-";
      UnitsSoundAfter(w, i, r, r + 2);
    }
  }

  /** The unit group w[i..e], with its separator w[r..e], followed by the end or unit groups. */
  lemma {:induction false} UnitsSoundAfter(w: string, i: nat, r: nat, e: nat)
    requires i < r < e <= |w| && (forall m :: i <= m < r ==> IsDigit(w[m])) && UnitTail(w[r..e])
    requires EndOrUnitsFrom(w, e)
    ensures IsUnits(w[i..])
    decreases |w| - i, 0
  {
    UnitOf(w, i, r, e);
    if e < |w| {
      UnitsSound(w, e);
    }
    UnitsOf(w, i, e);
  }

  /** What a unit separator w[r..e] can be. */
  lemma UnitTailShape(w: string, r: nat, e: nat)
    requires r <= e <= |w| && UnitTail(w[r..e])
    ensures e <= r + 2
    ensures e == r + 1 ==> w[r] == '-' || IsNumericSpace(w[r])
    ensures e == r + 2 ==> w[r] == '-' && IsNumericSpace(w[r + 1])
  {
    if e == r + 1 {
      assert w[r..e][0] == w[r];
    } else if e == r + 2 {
      assert w[r..e][0] == w[r] && w[r..e][1] == w[r + 1];
      assert w[r..e][..1] == [w[r]];
    }
  }

  /** Digits from i to r, a unit separator w[r..e], then the end or unit groups. */
  lemma UnitsFromParts(w: string, i: nat, r: nat, e: nat)
    requires i < r <= e <= |w| && (forall m :: i <= m < r ==> IsDigit(w[m])) && UnitTail(w[r..e])
    requires r < e || e == |w|
    requires EndOrUnitsFrom(w, e)
    ensures UnitsFrom(w, i)
  {
    UnitTailShape(w, r, e);
    RunEndAt(w, i, r);
  }

  lemma {:induction false} UnitsComplete(w: string, i: nat)
    requires i <= |w| && IsUnits(w[i..])
    ensures UnitsFrom(w, i)
    decreases |w| - i
  {
    var u := w[i..];
    if IsUnit(u) {
      assert u == w[i..|w|];
      UnitCompleteAt(w, i, |w|);
    } else {
      var m :| 0 < m < |u| && IsUnit(u[..m]) && IsUnits(u[m..]);
      var e := i + m;
      assert u[m..] == w[e..];
      UnitsComplete(w, e);
      assert u[..m] == w[i..e];
      assert IsUnit(w[i..e]);
      assert EndOrUnitsFrom(w, e);
      UnitCompleteAt(w, i, e);
    }
  }

  /** A unit group w[i..e] followed by the end or unit groups. */
  lemma UnitCompleteAt(w: string, i: nat, e: nat)
    requires i < e <= |w| && IsUnit(w[i..e]) && EndOrUnitsFrom(w, e)
    ensures UnitsFrom(w, i)
  {
    var k := UnitSplit(w, i, e);
    DigitsSlice(w, i, i + k);
    if i + k == e && e < |w| {
      UnitsFromDigitPrefix(w, i, e);
    } else {
      UnitsFromParts(w, i, i + k, e);
    }
  }

  /** The digits and the separator of a unit group w[i..e]. */
  lemma UnitSplit(w: string, i: nat, e: nat) returns (k: nat)
    requires i < e <= |w| && IsUnit(w[i..e])
    ensures 0 < k <= e - i && AllDigits(w[i..i + k]) && UnitTail(w[i + k..e])
  {
    var v := w[i..e];
    k :| 0 < k <= |v| && AllDigits(v[..k]) && UnitTail(v[k..]);
    assert v[..k] == w[i..i + k];
    assert v[k..] == w[i + k..e];
  }

  /** The lead is determined by the position of the first digit. */
  lemma LeadBeforeDigit(w: string, p: nat)
    requires p < |w| && Lead(w[..p]) && IsDigit(w[p])
    ensures LeadLength(w) == p
  {
    if p == 1 {
      assert w[0] == w[..p][0];
    } else if p == 2 {
      assert w[0] == w[..p][0] && w[1] == w[..p][1];
    }
  }

  /** What a head separator w[j..e] can be. */
  lemma HeadTailShape(w: string, j: nat, e: nat)
    requires j <= e <= |w| && HeadTail(w[j..e])
    ensures e <= j + 3
    ensures forall m :: j <= m < e ==> w[m] == '-' || w[m] == ')' || IsNumericSpace(w[m])
    ensures forall m :: j <= m < e && w[m] == '-' ==> m == j
    ensures forall m :: j <= m < e && w[m] == ')' ==> m == j || (m == j + 1 && w[j] == '-')
    ensures forall m :: j <= m < e && IsNumericSpace(w[m]) ==> m == e - 1
  {
    var x := w[j..e];
    assert forall m :: j <= m < e ==> w[m] == x[m - j];
    if x != [] && IsNumericSpace(x[|x| - 1]) && DashParen(x[..|x| - 1]) {
      var y := x[..|x| - 1];
      assert forall m :: 0 <= m < |y| ==> y[m] == x[m];
    }
  }

  /** The greedy reading of the head separator stops where the next digit is. */
  lemma HeadTailEndAt(w: string, j: nat, e: nat)
    requires j <= e <= |w| && HeadTail(w[j..e]) && (e == |w| || IsDigit(w[e]))
    ensures HeadTailEnd(w, j) == e
  {
    HeadTailShape(w, j, e);
  }

  /** Lead w[..p], digits from p to k and head separator w[k..i] make a head group. */
  lemma HeadOf(w: string, p: nat, k: nat, i: nat)
    requires p < k <= i <= |w| && Lead(w[..p]) && (forall m :: p <= m < k ==> IsDigit(w[m]))
    requires HeadTail(w[k..i])
    ensures IsHead(w[..i])
  {
    var h := w[..i];
    SliceOfPrefix(w, i, 0, p);
    SliceOfPrefix(w, i, p, k);
    SliceOfPrefix(w, i, k, i);
    assert h[..p] == h[0..p] && h[k..] == h[k..i];
    DigitsSlice(w, p, k);
    assert Lead(h[..p]) && AllDigits(h[p..k]) && HeadTail(h[k..]);
  }

  lemma SliceOfPrefix(w: string, i: nat, a: nat, b: nat)
    requires a <= b <= i <= |w|
    ensures w[..i][a..b] == w[a..b]
  {
    forall m | 0 <= m < b - a
      ensures w[..i][a..b][m] == w[a..b][m]
    {
    }
  }

  lemma PhoneOf(w: string, i: nat)
    requires 0 < i < |w| && IsHead(w[..i]) && IsUnits(w[i..])
    ensures IsPhone(w)
  {
  }

  lemma BodySound(w: string)
    requires Body(w)
    ensures IsPhone(w)
  {
    var p := LeadLength(w);
    var r := RunEnd(w, p);
    if r >= p + 2 && UnitsFrom(w, p + 1) {
      assert w[p + 1..p + 1] == "";
      HeadOf(w, p, p + 1, p + 1);
      UnitsSound(w, p + 1);
      PhoneOf(w, p + 1);
    } else {
      var e := HeadTailEnd(w, r);
      HeadOf(w, p, r, e);
      UnitsSound(w, e);
      PhoneOf(w, e);
    }
  }

  lemma BodyComplete(w: string)
    requires IsPhone(w)
    ensures Body(w)
  {
    var i :| 0 < i < |w| && IsHead(w[..i]) && IsUnits(w[i..]);
    UnitsComplete(w, i);
    var h := w[..i];
    var p, k :| 0 <= p < k <= |h| && Lead(h[..p]) && AllDigits(h[p..k]) && HeadTail(h[k..]);
    assert h[..p] == w[..p] && h[p..k] == w[p..k] && h[k..] == w[k..i];
    DigitsSlice(w, p, k);
    LeadBeforeDigit(w, p);
    if k == i {
      UnitsFromDigitPrefix(w, p + 1, i);
      assert RunEnd(w, p) == RunEnd(w, p + 1);
    } else {
      HeadTailShape(w, k, i);
      RunEndAt(w, p, k);
      HeadTailEndAt(w, k, i);
    }
  }

  /** The recognizer and the pattern's language agree on every string. */
  lemma RecognizeIsPattern(s: string)
    ensures Recognize(s) <==> PatternMatches(s)
  {
    if Body(s) { BodySound(s); }
    if IsPhone(s) { BodyComplete(s); }
    if s != [] {
      var r := s[..|s| - 1];
      if Body(r) { BodySound(r); }
      if IsPhone(r) { BodyComplete(r); }
    }
  }

  // ---------------------------------------------------------------------
  // What an accepted number looks like
  // ---------------------------------------------------------------------

  /** The unit groups hold only digits, `-` and white space. */
  lemma {:induction false} UnitsChars(w: string, i: nat)
    requires i <= |w| && UnitsFrom(w, i)
    ensures forall m :: i <= m < |w| ==> IsDigit(w[m]) || w[m] == '-' || IsNumericSpace(w[m])
    decreases |w| - i
  {
    var r := RunEnd(w, i);
    assert UnitRestFrom(w, r);
    if r < |w| {
      if (IsNumericSpace(w[r]) || w[r] == '-') && EndOrUnitsFrom(w, r + 1) {
        if r + 1 < |w| {
          UnitsChars(w, r + 1);
        }
      } else {
        assert w[r] == '-' && r + 1 < |w| && IsNumericSpace(w[r + 1]) && EndOrUnitsFrom(w, r + 2);
        if r + 2 < |w| {
          UnitsChars(w, r + 2);
        }
      }
    }
  }

  /**
   * An accepted body: the lead, a digit run from p to r, and after it
   * only digits, `-`, `)` and white space, with a `)` only at r or after a
   * `-` at r; a second digit follows the first.
   */
  lemma BodyShape(w: string)
    requires Body(w)
    ensures var p := LeadLength(w); var r := RunEnd(w, p);
      p < r &&
      (forall m :: 0 <= m < p ==> w[m] == '+' || w[m] == '(') &&
      (forall m :: p <= m < |w| ==> IsDigit(w[m]) || w[m] == '-' || w[m] == ')' || IsNumericSpace(w[m])) &&
      (forall m :: p <= m < |w| && w[m] == ')' ==> m == r || (m == r + 1 && w[r] == '-')) &&
      p + 1 < |w| && exists j :: p < j < |w| && IsDigit(w[j])
  {
    var p := LeadLength(w);
    var r := RunEnd(w, p);
    if r >= p + 2 && UnitsFrom(w, p + 1) {
      UnitsChars(w, p + 1);
      assert IsDigit(w[p + 1]);
    } else {
      var e := HeadTailEnd(w, r);
      HeadTailShape(w, r, e);
      UnitsChars(w, e);
      assert IsDigit(w[e]);
    }
  }

  /** The string the anchored pattern is matched against, without the final newline `$` allows. */
  function Subject(s: string): (w: string)
    requires Recognize(s)
    ensures Body(w) && |w| <= |s| && w == s[..|w|]
    ensures |w| < |s| ==> |w| == |s| - 1 && s[|w|] == '\n'
  {
    if Body(s) then s else s[..|s| - 1]
  }

  /** Only digits, `+`, `(`, `)`, `-` and white space are accepted; a letter is always rejected. */
  lemma AcceptedChars(s: string)
    ensures Recognize(s) ==> forall m :: 0 <= m < |s| ==> PhoneChar(s[m])
    ensures (exists m :: 0 <= m < |s| && IsLetter(s[m])) ==> !Recognize(s)
  {
    if Recognize(s) {
      var w := Subject(s);
      BodyShape(w);
      assert forall m :: 0 <= m < |w| ==> s[m] == w[m];
    }
  }

  /** An accepted number has at least two digits, so a single digit is rejected. */
  lemma AcceptedHasTwoDigits(s: string)
    requires Recognize(s)
    ensures exists i, j :: 0 <= i < j < |s| && IsDigit(s[i]) && IsDigit(s[j])
  {
    var w := Subject(s);
    BodyShape(w);
    var p := LeadLength(w);
    var j :| p < j < |w| && IsDigit(w[j]);
    assert s[p] == w[p] && s[j] == w[j];
  }

  /** A plain run of two or more digits is accepted. */
  lemma DigitRunAccepted(s: string)
    requires |s| >= 2 && AllDigits(s)
    ensures Recognize(s)
  {
    assert IsDigit(s[0]) && IsDigit(s[1]);
    RunEndAt(s, 0, |s|);
    RunEndAt(s, 1, |s|);
    assert UnitsFrom(s, 1);
  }

  /** `+` and `(` are accepted only before the first digit. */
  lemma LeadOnlyBeforeDigits(s: string, m: nat)
    requires Recognize(s) && m < |s| && (s[m] == '+' || s[m] == '(')
    ensures forall j :: 0 <= j < m ==> !IsDigit(s[j])
  {
    var w := Subject(s);
    BodyShape(w);
    assert forall j :: 0 <= j < |w| ==> s[j] == w[j];
  }

  /**
   * A `)` directly follows the first digit run, or the `-` right after it:
   * what precedes it is the optional `+` and `(`, one run of digits and at
   * most a `-`.
   */
  lemma ParenPlacement(s: string, m: nat)
    requires Recognize(s) && m < |s| && s[m] == ')'
    ensures exists p, r :: 0 <= p < r <= m && Lead(s[..p]) && AllDigits(s[p..r]) &&
                           (m == r || (m == r + 1 && s[r] == '-'))
  {
    var w := Subject(s);
    BodyShape(w);
    var p := LeadLength(w);
    var r := RunEnd(w, p);
    assert forall j :: 0 <= j < |w| ==> s[j] == w[j];
    assert s[..p] == w[..p];
    DigitsSlice(s, p, r);
  }

  /** At most one `)` is accepted. */
  lemma ParenAtMostOnce(s: string, m: nat, n: nat)
    requires Recognize(s) && m < |s| && n < |s| && s[m] == ')' && s[n] == ')'
    ensures m == n
  {
    var w := Subject(s);
    BodyShape(w);
    assert forall j :: 0 <= j < |w| ==> s[j] == w[j];
  }
}
