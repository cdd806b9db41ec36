/** The hidden names under which the bridge keeps things in the global object. */
module HiddenNames {

  /** The byte FF in front of a name hides it from scripts. */
  const HIDDEN: char := 255 as char

  const NATIVE_MOD: string := "_nm_"
  const ECMA_OBJ: string := "_eo_"
  const NATIVE_MOD_COUNT: string := [HIDDEN] + "_nmc_"

  function Digit(d: nat): (c: char)
    requires d < 10
  {
    (48 + d) as char
  }

  /** %lu */
  function Decimal(n: nat): (s: string)
    ensures |s| >= 1
  {
    if n < 10 then [Digit(n)] else Decimal(n / 10) + [Digit(n % 10)]
  }

  /** createHiddenSymbol */
  function HiddenSymbol(kind: string, index: nat): string {
    [HIDDEN] + kind + Decimal(index)
  }

  function LoaderSlot(i: nat): string {
    HiddenSymbol(NATIVE_MOD, i)
  }

  function FunctionSlot(h: nat): string {
    HiddenSymbol(ECMA_OBJ, h)
  }

  predicate IsHidden(name: string) {
    name != [] && name[0] == HIDDEN
  }

  lemma {:induction false} DecimalInjective(m: nat, n: nat)
    requires Decimal(m) == Decimal(n)
    ensures m == n
  {
    var s := Decimal(m);
    assert s[|s| - 1] == Digit(m % 10) && s[|s| - 1] == Digit(n % 10);
    if m < 10 || n < 10 {
      assert |s| == 1;
    } else {
      assert s[..|s| - 1] == Decimal(m / 10);
      assert s[..|s| - 1] == Decimal(n / 10);
      DecimalInjective(m / 10, n / 10);
    }
  }

  /** No two hidden names of the bridge collide. */
  lemma NamesDistinct(i: nat, j: nat)
    ensures LoaderSlot(i) == LoaderSlot(j) <==> i == j
    ensures FunctionSlot(i) == FunctionSlot(j) <==> i == j
    ensures LoaderSlot(i) != FunctionSlot(j)
    ensures LoaderSlot(i) != NATIVE_MOD_COUNT && FunctionSlot(i) != NATIVE_MOD_COUNT
    ensures IsHidden(LoaderSlot(i)) && IsHidden(FunctionSlot(i)) && IsHidden(NATIVE_MOD_COUNT)
  {
    assert LoaderSlot(i)[5..] == Decimal(i) && LoaderSlot(j)[5..] == Decimal(j);
    assert FunctionSlot(i)[5..] == Decimal(i) && FunctionSlot(j)[5..] == Decimal(j);
    if LoaderSlot(i) == LoaderSlot(j) || FunctionSlot(i) == FunctionSlot(j) {
      DecimalInjective(i, j);
    }
    assert LoaderSlot(i)[2] == 'n' && FunctionSlot(j)[2] == 'e';
    assert LoaderSlot(i)[4] == '_' && FunctionSlot(i)[2] == 'e';
  }
}
