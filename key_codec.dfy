/**
 * Key codec of the allocation tree (src/App.tsx).
 *
 * A node key is a text path such as "2-0-1": one decimal field per level,
 * joined by '-'. The depth of a node (1 for a root; the app's tree has four
 * levels, but nothing in the key layout bounds it) is read back from its key
 * by splitting on '-' and counting the fields.
 */
module KeyCodec {

  const Dash: char := '-'

  predicate IsDigit(c: char) {
    '0' <= c <= '9'
  }

  function DigitChar(d: nat): (c: char)
    requires d < 10
    ensures IsDigit(c)
  {
    ['0', '1', '2', '3', '4', '5', '6', '7', '8', '9'][d]
  }

  function DigitValue(c: char): (d: nat)
    requires IsDigit(c)
    ensures d < 10 && DigitChar(d) == c
  {
    c as int - '0' as int
  }

  /** Decimal rendering of a non-negative integer, as a JS template literal `${n}` writes it. */
  function NatToString(n: nat): (s: string)
    ensures |s| > 0
    ensures forall k :: 0 <= k < |s| ==> IsDigit(s[k])
  {
    if n < 10 then [DigitChar(n)] else NatToString(n / 10) + [DigitChar(n % 10)]
  }

  /** Reads a non-empty string of decimal digits back as a number. */
  function DecimalValue(s: string): nat
    requires forall k :: 0 <= k < |s| ==> IsDigit(s[k])
  {
    if s == [] then 0 else DecimalValue(s[..|s| - 1]) * 10 + DigitValue(s[|s| - 1])
  }

  lemma DigitValueOfChar(d: nat)
    requires d < 10
    ensures DigitValue(DigitChar(d)) == d
  {
  }

  /** The decimal rendering reads back to the number: distinct positions give distinct fields. */
  lemma {:induction false} DecimalRoundTrip(n: nat)
    ensures DecimalValue(NatToString(n)) == n
  {
    var s := NatToString(n);
    if n >= 10 {
      DecimalRoundTrip(n / 10);
      assert s[..|s| - 1] == NatToString(n / 10);
      DigitValueOfChar(n % 10);
      assert s[|s| - 1] == DigitChar(n % 10);
    } else {
      DigitValueOfChar(n);
    }
  }

  lemma NatToStringInjective(m: nat, n: nat)
    requires NatToString(m) == NatToString(n)
    ensures m == n
  {
    DecimalRoundTrip(m);
    DecimalRoundTrip(n);
  }

  predicate NoDash(s: string) {
    forall k :: 0 <= k < |s| ==> s[k] != Dash
  }

  /** JavaScript's `s.split('-')`: the fields between dashes, at least one (possibly empty). */
  function Split(s: string): (fields: seq<string>)
    ensures |fields| > 0
    ensures forall j :: 0 <= j < |fields| ==> NoDash(fields[j])
  {
    if s == [] then [[]]
    else
      var rest := Split(s[1..]);
      if s[0] == Dash then [[]] + rest
      else [[s[0]] + rest[0]] + rest[1..]
  }

  /** `fields.join('-')`. */
  function Join(fields: seq<string>): string
    requires |fields| > 0
  {
    if |fields| == 1 then fields[0] else fields[0] + [Dash] + Join(fields[1..])
  }

  function CountDashes(s: string): nat {
    if s == [] then 0 else (if s[0] == Dash then 1 else 0) + CountDashes(s[1..])
  }

  /** Splitting and joining again gives back the key; there is one more field than dashes. */
  lemma {:induction false} SplitJoin(s: string)
    ensures Join(Split(s)) == s
    ensures |Split(s)| == CountDashes(s) + 1
  {
    if s != [] {
      SplitJoin(s[1..]);
      var rest := Split(s[1..]);
      if s[0] == Dash {
        assert Split(s) == [[]] + rest;
        assert Join(Split(s)) == [] + [Dash] + Join(rest);
        assert s == [s[0]] + s[1..];
      } else {
        var fields := Split(s);
        assert fields == [[s[0]] + rest[0]] + rest[1..];
        if |rest| == 1 {
          assert Join(fields) == [s[0]] + rest[0];
        } else {
          assert fields[1..] == rest[1..];
          assert Join(rest) == rest[0] + [Dash] + Join(rest[1..]);
          assert Join(fields) == [s[0]] + rest[0] + [Dash] + Join(rest[1..]);
        }
        assert s == [s[0]] + s[1..];
      }
    }
  }

  /** Appending "-" and a dash-free field adds exactly that field. */
  lemma {:induction false} SplitExtend(s: string, field: string)
    requires NoDash(field)
    ensures Split(s + [Dash] + field) == Split(s) + [field]
  {
    if s == [] {
      SplitNoDash(field);
      assert [Dash] + field == [Dash] + field;
      assert ([] + [Dash] + field)[1..] == field;
    } else {
      SplitExtend(s[1..], field);
      assert (s + [Dash] + field)[1..] == s[1..] + [Dash] + field;
    }
  }

  lemma {:induction false} SplitNoDash(field: string)
    requires NoDash(field)
    ensures Split(field) == [field]
  {
    if field != [] {
      SplitNoDash(field[1..]);
      assert field == [field[0]] + field[1..];
    }
  }

  /**
   * `parseKey` (src/App.tsx:18-24): a falsy key (here the empty string) is level 1,
   * any other key is as deep as it has '-'-separated fields; either way the
   * level is one more than the number of dashes.
   */
  function ParseKey(key: string): (level: nat)
    ensures level == CountDashes(key) + 1
  {
    SplitJoin(key);
    if key == [] then 1 else |Split(key)|
  }

  /** The key of the `index`-th child of a node keyed `parent`: `${parent}-${index}`. */
  function Extend(parent: string, index: nat): (key: string)
    ensures |key| > 0
  {
    parent + [Dash] + NatToString(index)
  }

  /** The key of the `index`-th root: `${index}`. */
  function RootKey(index: nat): (key: string)
    ensures |key| > 0 && NoDash(key)
  {
    NatToString(index)
  }

  lemma DigitsNoDash(s: string)
    requires forall k :: 0 <= k < |s| ==> IsDigit(s[k])
    ensures NoDash(s)
  {
  }

  /** A child key is exactly one level deeper than its parent's, for every parent key. */
  lemma ExtendDeepens(parent: string, index: nat)
    ensures ParseKey(Extend(parent, index)) == ParseKey(parent) + 1
    ensures Split(Extend(parent, index)) == Split(parent) + [NatToString(index)]
  {
    DigitsNoDash(NatToString(index));
    SplitExtend(parent, NatToString(index));
  }

  /** A root key is at level 1. */
  lemma RootKeyLevel(index: nat)
    ensures ParseKey(RootKey(index)) == 1
  {
    SplitNoDash(RootKey(index));
  }

  /** Keys made by `Extend` give back their parent and position. */
  lemma ExtendInjective(p: string, i: nat, q: string, j: nat)
    requires Extend(p, i) == Extend(q, j)
    ensures p == q && i == j
  {
    ExtendDeepens(p, i);
    ExtendDeepens(q, j);
    var fp, fq := Split(p), Split(q);
    assert fp + [NatToString(i)] == fq + [NatToString(j)];
    assert |fp| == |fq|;
    assert NatToString(i) == (fp + [NatToString(i)])[|fp|];
    NatToStringInjective(i, j);
    assert fp == (fp + [NatToString(i)])[..|fp|];
    assert fq == (fq + [NatToString(j)])[..|fq|];
    SplitJoin(p);
    SplitJoin(q);
  }

  /**
   * The key the converter gives to the `index`-th node below `parent`
   * (src/App.tsx:286): `${parent}-${index}` when `parent` is truthy, else `${index}`.
   */
  function ChildKey(parent: string, index: nat): (key: string)
    ensures |key| > 0
  {
    if parent == [] then RootKey(index) else Extend(parent, index)
  }

  /** A position key is one level below a non-empty parent, and level 1 below none. */
  lemma ChildKeyLevel(parent: string, index: nat)
    ensures ParseKey(ChildKey(parent, index)) == if parent == [] then 1 else ParseKey(parent) + 1
  {
    if parent == [] {
      RootKeyLevel(index);
    } else {
      ExtendDeepens(parent, index);
    }
  }
}
