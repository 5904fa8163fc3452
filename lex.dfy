/**
 * Text helpers used when listing a container's children and when labelling
 * histograms: Python's `str` ordering, `key.split(";")[0]`, the sorted
 * de-duplicated name list, and decimal rendering of sizes.
 */
module Lex {

  /** Python's `a < b` on `str`: lexicographic by code point. */
  predicate Less(a: string, b: string)
  {
    if a == [] then b != []
    else if b == [] then false
    else if a[0] != b[0] then a[0] < b[0]
    else Less(a[1..], b[1..])
  }

  lemma {:induction false} LessIrreflexive(a: string)
    ensures !Less(a, a)
  {
    if a != [] {
      LessIrreflexive(a[1..]);
    }
  }

  lemma {:induction false} LessTransitive(a: string, b: string, c: string)
    requires Less(a, b) && Less(b, c)
    ensures Less(a, c)
  {
    if a != [] && b != [] && c != [] && a[0] == b[0] == c[0] {
      LessTransitive(a[1..], b[1..], c[1..]);
    }
  }

  lemma {:induction false} LessConnected(a: string, b: string)
    ensures a == b || Less(a, b) || Less(b, a)
  {
    if a != [] && b != [] && a[0] == b[0] {
      LessConnected(a[1..], b[1..]);
      if a[1..] == b[1..] {
        assert a == [a[0]] + a[1..] && b == [b[0]] + b[1..];
      }
    }
  }

  lemma {:induction false} LessAsymmetric(a: string, b: string)
    requires Less(a, b)
    ensures !Less(b, a)
  {
    if a != [] && b != [] && a[0] == b[0] {
      LessAsymmetric(a[1..], b[1..]);
    }
  }

  /** Strictly increasing under `Less`: sorted and without duplicates. */
  ghost predicate StrictlySorted(s: seq<string>)
  {
    forall i, j :: 0 <= i < j < |s| ==> Less(s[i], s[j])
  }

  ghost function Elems(s: seq<string>): set<string>
  {
    set x | x in s
  }

  /** `key.split(";")[0]`: everything before the first `;`, or the whole key. */
  function StripVersion(key: string): (r: string)
    ensures ';' !in r
    ensures |r| <= |key| && r == key[..|r|]
    ensures r == key || key[|r|] == ';'
  {
    if key == [] || key[0] == ';' then []
    else [key[0]] + StripVersion(key[1..])
  }

  /** The stripped key, given where its first `;` is. */
  lemma StripVersionAt(key: string, n: nat)
    requires n < |key| && key[n] == ';' && ';' !in key[..n]
    ensures StripVersion(key) == key[..n]
  {
  }

  /** A key without `;` is kept whole. */
  lemma StripVersionNone(key: string)
    requires ';' !in key
    ensures StripVersion(key) == key
  {
  }

  /** The names `{key.split(";")[0] for key in keys}`. */
  ghost function NameSet(keys: seq<string>): set<string>
  {
    set k | k in keys :: StripVersion(k)
  }

  /** Adds `x` to a sorted list unless it is already there. */
  function Insert(x: string, s: seq<string>): seq<string>
  {
    if s == [] then [x]
    else if x == s[0] then s
    else if Less(x, s[0]) then [x] + s
    else [s[0]] + Insert(x, s[1..])
  }

  /** Inserting adds `x` and nothing else. */
  lemma {:induction false} InsertElems(x: string, s: seq<string>)
    ensures Elems(Insert(x, s)) == Elems(s) + {x}
  {
    if s != [] && x != s[0] && !Less(x, s[0]) {
      InsertElems(x, s[1..]);
      assert s == [s[0]] + s[1..];
      assert Elems(s) == {s[0]} + Elems(s[1..]);
      assert Elems([s[0]] + Insert(x, s[1..])) == {s[0]} + Elems(Insert(x, s[1..]));
    } else if s != [] && x != s[0] {
      assert Elems([x] + s) == Elems(s) + {x};
    }
  }

  /** Inserting into a strictly increasing list keeps it strictly increasing. */
  lemma {:induction false} InsertKeepsSorted(x: string, s: seq<string>)
    requires StrictlySorted(s)
    ensures StrictlySorted(Insert(x, s))
  {
    if s != [] && x != s[0] {
      if Less(x, s[0]) {
        forall j | 0 < j < |s| ensures Less(x, s[j]) { LessTransitive(x, s[0], s[j]); }
      } else {
        LessConnected(x, s[0]);
        InsertKeepsSorted(x, s[1..]);
        InsertElems(x, s[1..]);
        var t := Insert(x, s[1..]);
        forall k | 0 <= k < |t| ensures Less(s[0], t[k]) {
          assert t[k] in Elems(t);
          if t[k] != x {
            var m :| 0 <= m < |s[1..]| && s[1..][m] == t[k];
            assert s[m + 1] == t[k];
          }
        }
      }
    }
  }

  /** `sorted({key.split(";")[0] for key in keys})`. */
  function SortedNames(keys: seq<string>): seq<string>
  {
    if keys == [] then []
    else Insert(StripVersion(keys[|keys| - 1]), SortedNames(keys[..|keys| - 1]))
  }

  /** The child names are strictly increasing and are exactly the stripped keys. */
  lemma {:induction false} SortedNamesSpec(keys: seq<string>)
    ensures StrictlySorted(SortedNames(keys))
    ensures Elems(SortedNames(keys)) == NameSet(keys)
  {
    if keys != [] {
      var init := keys[..|keys| - 1];
      assert keys == init + [keys[|keys| - 1]];
      assert NameSet(keys) == NameSet(init) + {StripVersion(keys[|keys| - 1])};
      SortedNamesSpec(init);
      InsertKeepsSorted(StripVersion(keys[|keys| - 1]), SortedNames(init));
      InsertElems(StripVersion(keys[|keys| - 1]), SortedNames(init));
    }
  }

  /** A strictly sorted list is determined by its elements: Python's `sorted` of a set. */
  lemma {:induction false} StrictlySortedUnique(s: seq<string>, t: seq<string>)
    requires StrictlySorted(s) && StrictlySorted(t)
    requires Elems(s) == Elems(t)
    ensures s == t
  {
    assert s != [] ==> s[0] in Elems(s);
    assert t != [] ==> t[0] in Elems(t);
    if s != [] && t != [] {
      assert s[0] == t[0] by {
        assert s[0] in Elems(t) && t[0] in Elems(s);
        if s[0] != t[0] {
          var i :| 0 <= i < |t| && t[i] == s[0];
          var j :| 0 <= j < |s| && s[j] == t[0];
          assert Less(t[0], t[i]);
          assert Less(s[0], s[j]);
          LessAsymmetric(s[0], t[0]);
        }
      }
      assert Elems(s[1..]) == Elems(s) - {s[0]} by {
        forall y | y in s[1..] ensures y != s[0] {
          var k :| 1 <= k < |s| && s[k] == y;
          LessIrreflexive(s[0]);
        }
        assert s == [s[0]] + s[1..];
      }
      assert Elems(t[1..]) == Elems(t) - {t[0]} by {
        forall y | y in t[1..] ensures y != t[0] {
          var k :| 1 <= k < |t| && t[k] == y;
          LessIrreflexive(t[0]);
        }
        assert t == [t[0]] + t[1..];
      }
      StrictlySortedUnique(s[1..], t[1..]);
    }
  }

  /** The child list depends only on the set of stripped names, not on the keys' order. */
  lemma SortedNamesOfSameNames(keys1: seq<string>, keys2: seq<string>)
    requires NameSet(keys1) == NameSet(keys2)
    ensures SortedNames(keys1) == SortedNames(keys2)
  {
    SortedNamesSpec(keys1);
    SortedNamesSpec(keys2);
    StrictlySortedUnique(SortedNames(keys1), SortedNames(keys2));
  }

  predicate IsDigit(c: char)
  {
    '0' <= c <= '9'
  }

  function DigitChar(d: nat): (c: char)
    requires d < 10
    ensures IsDigit(c) && (c as int) - ('0' as int) == d
  {
    ['0', '1', '2', '3', '4', '5', '6', '7', '8', '9'][d]
  }

  /** `f"{n}"` for a non-negative integer: its decimal digits, no leading zeros. */
  function Decimal(n: nat): (r: string)
    ensures r != []
    ensures forall i :: 0 <= i < |r| ==> IsDigit(r[i])
    ensures |r| > 1 ==> r[0] != '0'
  {
    if n < 10 then [DigitChar(n)]
    else Decimal(n / 10) + [DigitChar(n % 10)]
  }

  function DigitValue(c: char): (d: nat)
    requires IsDigit(c)
    ensures d < 10 && DigitChar(d) == c
  {
    (c as int) - ('0' as int)
  }

  /** Reads a string of decimal digits back as a number. */
  function ParseDecimal(s: string): nat
    requires forall i :: 0 <= i < |s| ==> IsDigit(s[i])
  {
    if s == [] then 0
    else 10 * ParseDecimal(s[..|s| - 1]) + DigitValue(s[|s| - 1])
  }

  lemma {:induction false} DecimalRoundTrip(n: nat)
    ensures ParseDecimal(Decimal(n)) == n
  {
    if n >= 10 {
      var d := Decimal(n);
      assert d[..|d| - 1] == Decimal(n / 10);
      DecimalRoundTrip(n / 10);
    }
  }
}
