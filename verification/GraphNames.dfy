/** The names Freeze makes up: "<v>split" for a Split op and "<v>_split_<i>" for its outputs. */
module GraphNames {

  function Digit(d: nat): char
    requires d < 10
  {
    "0123456789"[d]
  }

  /** std::to_string of a non-negative int. */
  function Decimal(n: nat): (s: string)
    ensures |s| > 0 && forall k :: 0 <= k < |s| ==> s[k] != '_'
  {
    if n < 10 then [Digit(n)] else Decimal(n / 10) + [Digit(n % 10)]
  }

  /** The number that a row of decimal digits stands for. */
  function Read(s: string): int {
    if s == "" then 0 else 10 * Read(s[..|s| - 1]) + (s[|s| - 1] as int - '0' as int)
  }

  predicate AllDigits(s: string) { forall k :: 0 <= k < |s| ==> '0' <= s[k] <= '9' }

  /** Decimal notation: the digits read back as the number, and there is no leading zero but in "0". */
  lemma {:induction false} DecimalReads(n: nat)
    ensures AllDigits(Decimal(n)) && Read(Decimal(n)) == n && (Decimal(n)[0] == '0' ==> Decimal(n) == "0" && n == 0)
  {
    var s := Decimal(n);
    if n < 10 {
      assert s == [Digit(n)] && s[..0] == "" && Read("") == 0;
    } else {
      DecimalReads(n / 10);
      assert s[..|s| - 1] == Decimal(n / 10) && s[|s| - 1] == Digit(n % 10);
    }
  }

  /** The i-th copy of v is called v_split_i, the Split op vsplit. */
  lemma MadeUpNames(v: string, i: nat)
    ensures SplitVar(v, i) == v + "_split_" + Decimal(i) && Read(SplitVar(v, i)[|v| + 7..]) == i
    ensures SplitOp(v) == v + "split"
  {
    DecimalReads(i);
    assert SplitVar(v, i)[|v| + 7..] == Decimal(i);
  }

  function SplitOp(v: string): string { v + "split" }

  function SplitVar(v: string, i: nat): string { v + "_split_" + Decimal(i) }

  lemma {:induction false} DecimalInjective(m: nat, n: nat)
    requires Decimal(m) == Decimal(n)
    ensures m == n
  {
    var s, t := Decimal(m), Decimal(n);
    assert s[|s| - 1] == Digit(m % 10) && t[|t| - 1] == Digit(n % 10);
    if m >= 10 && n >= 10 {
      assert s[..|s| - 1] == Decimal(m / 10) && t[..|t| - 1] == Decimal(n / 10);
      DecimalInjective(m / 10, n / 10);
    }
  }

  lemma SplitOpInjective(v: string, w: string)
    requires SplitOp(v) == SplitOp(w)
    ensures v == w
  {
    assert v == SplitOp(v)[..|SplitOp(v)| - 5];
    assert w == SplitOp(w)[..|SplitOp(w)| - 5];
  }

  lemma SplitOpsInjective()
    ensures forall v, w :: SplitOp(v) == SplitOp(w) ==> v == w
  {
    forall v, w | SplitOp(v) == SplitOp(w) ensures v == w {
      SplitOpInjective(v, w);
    }
  }

  /** The digits hold no underscore, so the last underscore separates them from the rest. */
  lemma SplitVarInjective(v: string, i: nat, w: string, j: nat)
    requires SplitVar(v, i) == SplitVar(w, j)
    ensures v == w && i == j
  {
    var s := SplitVar(v, i);
    var a, b := |v| + 7, |w| + 7;
    assert s[a - 1] == (v + "_split_")[a - 1] == '_' && s[b - 1] == (w + "_split_")[b - 1] == '_';
    assert s[a..] == Decimal(i) && s[b..] == Decimal(j);
    DecimalInjective(i, j);
    assert v == s[..|v|] && w == s[..|w|];
  }

  lemma SplitVarIsNew(v: string, i: nat)
    ensures SplitVar(v, i) != v
  {
    assert |SplitVar(v, i)| > |v|;
  }
}
