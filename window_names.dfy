/**
 * The static `windowNames` table of RenderSharedDrawData
 * (modules/ImGuiSharedDrawData.h): one placeholder ImGui window name per
 * received draw list, "Window" followed by the list's index in decimal.
 */
module WindowNames {

  /** The character of a decimal digit. */
  function Digit(d: nat): char
    requires d < 10
  {
    ('0' as int + d) as char
  }

  /** `std::to_string` of a non-negative `int`: its decimal digits, most significant first. */
  function DecimalString(n: nat): (s: string)
    ensures |s| >= 1
    ensures forall k :: 0 <= k < |s| ==> '0' <= s[k] <= '9'
    ensures |s| > 1 ==> s[0] != '0'
  {
    if n < 10 then [Digit(n)] else DecimalString(n / 10) + [Digit(n % 10)]
  }

  /** The number a string of decimal digits denotes. */
  function DecimalValue(s: string): int {
    if s == [] then 0 else 10 * DecimalValue(s[..|s| - 1]) + (s[|s| - 1] as int - '0' as int)
  }

  /** The digits read back give the number. */
  lemma {:induction false} DecimalRoundTrip(n: nat)
    ensures DecimalValue(DecimalString(n)) == n
  {
    if n >= 10 {
      DecimalRoundTrip(n / 10);
      var s := DecimalString(n);
      assert s[..|s| - 1] == DecimalString(n / 10);
    }
  }

  /** Different indices never share a decimal spelling. */
  lemma DecimalInjective(m: nat, n: nat)
    requires DecimalString(m) == DecimalString(n)
    ensures m == n
  {
    DecimalRoundTrip(m);
    DecimalRoundTrip(n);
  }

  /** The placeholder window for list `i`: "Window" + std::to_string(i). */
  function WindowName(i: nat): (s: string)
    ensures |s| > 6 && s[..6] == "Window"
  {
    "Window" + DecimalString(i)
  }

  /** Different lists get different windows, hence separate ImGui draw lists. */
  lemma WindowNamesDistinct(i: nat, j: nat)
    requires i != j
    ensures WindowName(i) != WindowName(j)
  {
    if WindowName(i) == WindowName(j) {
      assert WindowName(i)[6..] == DecimalString(i);
      assert WindowName(j)[6..] == DecimalString(j);
      DecimalInjective(i, j);
    }
  }

  /** The table after growing it for `count` lists: new names appended up to index `count - 1`. */
  function GrownNames(names: seq<string>, count: int): (r: seq<string>)
    ensures |r| == if count <= |names| then |names| else count
    decreases count
  {
    if count <= |names| then names else GrownNames(names, count - 1) + [WindowName(count - 1)]
  }

  /**
   * The table grows to max(old size, count), never shrinks, keeps its old
   * entries, and entry `i` of the new part is "Window" + i.
   */
  lemma {:induction false} GrownNamesSpec(names: seq<string>, count: int)
    ensures var r := GrownNames(names, count);
      && |r| == (if count <= |names| then |names| else count)
      && r[..|names|] == names
      && forall i :: |names| <= i < |r| ==> r[i] == WindowName(i)
  {
    if count > |names| {
      GrownNamesSpec(names, count - 1);
    }
  }

  /** Every entry is the name of its own index: true of the empty table, kept by growth. */
  predicate NamedByIndex(names: seq<string>) {
    forall i :: 0 <= i < |names| ==> names[i] == WindowName(i)
  }

  /** Growth keeps the table named by index, so its entries stay pairwise distinct. */
  lemma GrownNamesDistinct(names: seq<string>, count: int)
    requires NamedByIndex(names)
    ensures NamedByIndex(GrownNames(names, count))
    ensures var r := GrownNames(names, count);
      forall i, j :: 0 <= i < j < |r| ==> r[i] != r[j]
  {
    var r := GrownNames(names, count);
    GrownNamesSpec(names, count);
    forall i | 0 <= i < |r| ensures r[i] == WindowName(i) {
      if i < |names| {
        assert r[..|names|][i] == r[i];
      }
    }
    forall i, j | 0 <= i < j < |r| ensures r[i] != r[j] {
      WindowNamesDistinct(i, j);
    }
  }
}
