/**
 * The part of PEP 440 that packaging.version.Version brings to this tool:
 * a final release "N(.N)*" and the ordering of releases, in which the
 * shorter release is padded with zeros (so 3.35 == 3.35.0).
 */
module Versions {
  import opened Common
  import opened Strings

  /** The release segment of a version: its dot-separated numbers. */
  type Release = seq<nat>

  predicate IsComponent(p: string) { p != [] && AllDigits(p) }

  /** Version(text): the release segment, or None where Version raises InvalidVersion. */
  function ParseVersion(text: string): (r: Option<Release>)
    ensures r.Some? ==> |r.value| == |SplitOn(text, '.')| >= 1
  {
    var parts := SplitOn(text, '.');
    if forall i :: 0 <= i < |parts| ==> IsComponent(parts[i]) then
      Some(seq(|parts|, i requires 0 <= i < |parts| => DigitsValue(parts[i])))
    else None
  }

  /** str(Version(...)) for a release: its numbers joined by dots. */
  function Format(v: Release): string
  {
    Join(seq(|v|, i requires 0 <= i < |v| => NatToDecimal(v[i])), ".")
  }

  /** Parsing the printed form of a release gives the release back. */
  lemma ParseFormat(v: Release)
    requires |v| >= 1
    ensures ParseVersion(Format(v)) == Some(v)
  {
    var parts := seq(|v|, i requires 0 <= i < |v| => NatToDecimal(v[i]));
    forall i | 0 <= i < |parts| ensures '.' !in parts[i] && IsComponent(parts[i]) {
      assert AllDigits(parts[i]);
    }
    SplitOnJoin(parts, '.');
    assert SplitOn(Format(v), '.') == parts;
    forall i | 0 <= i < |v| ensures DigitsValue(parts[i]) == v[i] {
      DigitsValueOfDecimal(v[i]);
    }
    var values := seq(|parts|, i requires 0 <= i < |parts| => DigitsValue(parts[i]));
    assert ParseVersion(Format(v)) == Some(values);
    assert values == v;
  }

  /** A digit string holds no dot. */
  lemma ComponentHasNoDot(p: string)
    requires IsComponent(p)
    ensures '.' !in p
  {
  }

  /** A dotted triple of dot-free pieces splits back into those pieces. */
  lemma SplitThree(a: string, b: string, c: string)
    requires '.' !in a && '.' !in b && '.' !in c
    ensures SplitOn(a + "." + b + "." + c, '.') == [a, b, c]
  {
    var parts := [a, b, c];
    assert parts[1..] == [b, c];
    assert [b, c][1..] == [c];
    assert Join([b, c], ".") == b + "." + c;
    assert Join(parts, ".") == a + "." + b + "." + c;
    SplitOnJoin(parts, '.');
  }

  /** The value ParseVersion gives a text whose pieces are known digit strings. */
  lemma ParsePieces(text: string, parts: seq<string>)
    requires SplitOn(text, '.') == parts
    requires forall i :: 0 <= i < |parts| ==> IsComponent(parts[i])
    ensures ParseVersion(text).Some? && |ParseVersion(text).value| == |parts|
    ensures forall i :: 0 <= i < |parts| ==> ParseVersion(text).value[i] == DigitsValue(parts[i])
  {
  }

  /** A release of three known numbers is their list. */
  lemma ThreeNumbers(v: Release, x: nat, y: nat, z: nat)
    requires |v| == 3 && v[0] == x && v[1] == y && v[2] == z
    ensures v == [x, y, z]
  {
  }

  /** A three-part version such as "3.35.0" reads as its three numbers. */
  lemma ParseThreeComponents(text: string, a: string, b: string, c: string)
    requires text == a + "." + b + "." + c
    requires IsComponent(a) && IsComponent(b) && IsComponent(c)
    ensures ParseVersion(text) == Some([DigitsValue(a), DigitsValue(b), DigitsValue(c)])
  {
    ComponentHasNoDot(a);
    ComponentHasNoDot(b);
    ComponentHasNoDot(c);
    SplitThree(a, b, c);
    var parts := [a, b, c];
    ParsePieces(text, parts);
    var v := ParseVersion(text).value;
    assert v[0] == DigitsValue(a) && v[1] == DigitsValue(b) && v[2] == DigitsValue(c);
    ThreeNumbers(v, DigitsValue(a), DigitsValue(b), DigitsValue(c));
  }

  function Head(a: Release): nat { if a == [] then 0 else a[0] }

  function Tail(a: Release): Release { if a == [] then [] else a[1..] }

  /**
   * Compares two releases component by component, a missing component
   * counting as zero: -1, 0 or 1.
   */
  function Cmp(a: Release, b: Release): (c: int)
    ensures -1 <= c <= 1
    decreases |a| + |b|
  {
    if a == [] && b == [] then 0
    else if Head(a) < Head(b) then -1
    else if Head(a) > Head(b) then 1
    else Cmp(Tail(a), Tail(b))
  }

  predicate Le(a: Release, b: Release) { Cmp(a, b) <= 0 }

  predicate Lt(a: Release, b: Release) { Cmp(a, b) < 0 }

  lemma {:induction false} CmpReflexive(a: Release)
    ensures Cmp(a, a) == 0
    decreases |a|
  {
    if a != [] {
      CmpReflexive(Tail(a));
    }
  }

  /** Swapping the operands negates the comparison. */
  lemma {:induction false} CmpSwapNegates(a: Release, b: Release)
    ensures Cmp(a, b) == -Cmp(b, a)
    decreases |a| + |b|
  {
    if !(a == [] && b == []) && Head(a) == Head(b) {
      CmpSwapNegates(Tail(a), Tail(b));
    }
  }

  /** Component `j` of a release, zero past its end (the padding PEP 440 comparison uses). */
  function At(a: Release, j: nat): nat { if j < |a| then a[j] else 0 }

  lemma AtTail(a: Release, j: nat)
    ensures At(Tail(a), j) == At(a, j + 1)
  {
  }

  /**
   * The first padded component in which two releases differ decides the
   * comparison: the release with the smaller one is the smaller release.
   */
  lemma {:induction false} CmpFirstDifference(a: Release, b: Release, k: nat)
    requires forall j :: 0 <= j < k ==> At(a, j) == At(b, j)
    requires At(a, k) < At(b, k)
    ensures Cmp(a, b) == -1 && Cmp(b, a) == 1
    decreases k
  {
    if k > 0 {
      assert At(a, 0) == At(b, 0);
      forall j | 0 <= j < k - 1 ensures At(Tail(a), j) == At(Tail(b), j) {
        AtTail(a, j);
        AtTail(b, j);
      }
      AtTail(a, k - 1);
      AtTail(b, k - 1);
      CmpFirstDifference(Tail(a), Tail(b), k - 1);
    }
  }

  /** Two releases compare equal exactly when they agree in every padded component. */
  lemma {:induction false} CmpZeroIff(a: Release, b: Release)
    ensures Cmp(a, b) == 0 <==> forall j: nat :: At(a, j) == At(b, j)
    decreases |a| + |b|
  {
    if a == [] && b == [] {
    } else if Head(a) != Head(b) {
      assert At(a, 0) != At(b, 0);
    } else {
      CmpZeroIff(Tail(a), Tail(b));
      if forall j: nat :: At(Tail(a), j) == At(Tail(b), j) {
        forall j: nat ensures At(a, j) == At(b, j) {
          if j > 0 {
            AtTail(a, j - 1);
            AtTail(b, j - 1);
          }
        }
      }
      if forall j: nat :: At(a, j) == At(b, j) {
        forall j: nat ensures At(Tail(a), j) == At(Tail(b), j) {
          AtTail(a, j);
          AtTail(b, j);
        }
      }
    }
  }

  /** The ordering is transitive, for <= and for <. */
  lemma {:induction false} CmpTransitive(a: Release, b: Release, c: Release)
    requires Cmp(a, b) <= 0 && Cmp(b, c) <= 0
    ensures Cmp(a, c) <= 0
    ensures Cmp(a, b) < 0 || Cmp(b, c) < 0 ==> Cmp(a, c) < 0
    decreases |a| + |b| + |c|
  {
    if a == [] && b == [] && c == [] {
    } else if Head(a) == Head(b) == Head(c) {
      if a == [] && b == [] {
        assert Cmp(a, b) == 0;
      }
      if b == [] && c == [] {
        assert Cmp(b, c) == 0;
      }
      CmpTransitive(Tail(a), Tail(b), Tail(c));
    }
  }

  /** A trailing zero does not change a release: 3.35 compares equal to 3.35.0. */
  lemma {:induction false} CmpTrailingZero(a: Release, b: Release)
    ensures Cmp(a + [0], b) == Cmp(a, b)
    decreases |a| + |b|
  {
    if a == [] {
      assert Head([0]) == 0 && Tail([0]) == [];
    } else {
      assert Head(a + [0]) == Head(a);
      assert Tail(a + [0]) == Tail(a) + [0];
      if Head(a) == Head(b) {
        CmpTrailingZero(Tail(a), Tail(b));
      }
    }
  }

  /** Python's `Version(x) <= Version(y)`: x is read first, then y. */
  function VersionLe(x: string, y: string): (r: Result<bool>)
    ensures r.Err? <==> ParseVersion(x).None? || ParseVersion(y).None?
    ensures r.Ok? ==> r.value == Le(ParseVersion(x).value, ParseVersion(y).value)
    ensures ParseVersion(x).None? ==> r == Err(InvalidVersion(x))
  {
    match ParseVersion(x)
    case None => Err(InvalidVersion(x))
    case Some(vx) =>
      match ParseVersion(y)
      case None => Err(InvalidVersion(y))
      case Some(vy) => Ok(Le(vx, vy))
  }

  /** Python's `Version(x) < Version(y)`. */
  function VersionLt(x: string, y: string): (r: Result<bool>)
    ensures r.Err? <==> ParseVersion(x).None? || ParseVersion(y).None?
    ensures r.Ok? ==> r.value == Lt(ParseVersion(x).value, ParseVersion(y).value)
  {
    match ParseVersion(x)
    case None => Err(InvalidVersion(x))
    case Some(vx) =>
      match ParseVersion(y)
      case None => Err(InvalidVersion(y))
      case Some(vy) => Ok(Lt(vx, vy))
  }
}
