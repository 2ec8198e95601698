/**
 * The .NET string primitives the core relies on: `char.IsWhiteSpace`,
 * `string.IsNullOrWhiteSpace`, `ToLower`, `EndsWith` and the ordinal
 * `string.Replace(string, string)`, with the facts about them that the
 * rest of the model uses.
 */
module Text {
  import opened Wrappers

  /** `char.IsWhiteSpace`: the Unicode space, line and paragraph separators,
      U+0009 to U+000D, U+0085 and U+00A0. */
  predicate IsWhiteSpace(c: char)
  {
    ('\U{9}' <= c <= '\U{D}') || c == ' ' || c == '\U{85}' || c == '\U{A0}' || c == '\U{1680}'
    || ('\U{2000}' <= c <= '\U{200A}') || c == '\U{2028}' || c == '\U{2029}' || c == '\U{202F}'
    || c == '\U{205F}' || c == '\U{3000}'
  }

  /** `string.IsNullOrWhiteSpace`: null, empty, or white space only. */
  predicate IsNullOrWhiteSpace(s: Option<string>)
  {
    s.None? || forall i :: 0 <= i < |s.value| ==> IsWhiteSpace(s.value[i])
  }

  /** Case mapping of one character (ASCII letters only). */
  function LowerChar(c: char): char
  {
    if 'A' <= c <= 'Z' then (c as int + 32) as char else c
  }

  function UpperChar(c: char): char
  {
    if 'a' <= c <= 'z' then (c as int - 32) as char else c
  }

  /** `ToLower`, character by character. */
  function ToLower(s: string): (r: string)
    ensures |r| == |s|
    ensures forall i :: 0 <= i < |s| ==> r[i] == LowerChar(s[i])
  {
    if s == [] then [] else [LowerChar(s[0])] + ToLower(s[1..])
  }

  /** True when `lit` contains no upper-case ASCII letter. */
  predicate IsLowerCase(lit: string)
  {
    forall i :: 0 <= i < |lit| ==> !('A' <= lit[i] <= 'Z')
  }

  /** `s` spells `lit` with any of its letters written in either case. */
  predicate EqualsIgnoringCase(s: string, lit: string)
  {
    |s| == |lit| && forall i :: 0 <= i < |s| ==> s[i] == lit[i] || s[i] == UpperChar(lit[i])
  }

  /** Comparing the lower-cased argument with a lower-case literal is a
      case-insensitive comparison, in both directions. */
  lemma ToLowerMatchesIgnoringCase(s: string, lit: string)
    requires IsLowerCase(lit)
    ensures ToLower(s) == lit <==> EqualsIgnoringCase(s, lit)
  {
    var low := ToLower(s);
    if |s| == |lit| {
      forall i | 0 <= i < |s|
        ensures low[i] == lit[i] <==> (s[i] == lit[i] || s[i] == UpperChar(lit[i]))
      {
        assert low[i] == LowerChar(s[i]);
      }
      if EqualsIgnoringCase(s, lit) {
        assert low == lit;
      }
    }
  }

  /** `s.EndsWith(suffix)` for a one-character suffix, compared ordinally. */
  predicate EndsWithChar(s: string, c: char)
  {
    |s| > 0 && s[|s| - 1] == c
  }

  /** `pattern` occurs in `s` starting at index `i`. */
  predicate OccursAt(s: string, pattern: string, i: nat)
  {
    i + |pattern| <= |s| && s[i..i + |pattern|] == pattern
  }

  /** `pattern` occurs nowhere in `s` */
  predicate NoOccurrence(s: string, pattern: string)
  {
    forall i :: 0 <= i <= |s| ==> !OccursAt(s, pattern, i)
  }

  /** `string.Replace(oldValue, newValue)`: scans left to right and replaces
      each non-overlapping occurrence of `oldValue` (ordinal comparison).
      .NET rejects an empty `oldValue`. */
  function Replace(s: string, oldValue: string, newValue: string): string
    requires |oldValue| > 0
    decreases |s|
  {
    if |s| < |oldValue| then s
    else if s[..|oldValue|] == oldValue then newValue + Replace(s[|oldValue|..], oldValue, newValue)
    else [s[0]] + Replace(s[1..], oldValue, newValue)
  }

  /** Replacing one character by another maps the string character by character. */
  lemma {:induction false} ReplaceCharByChar(s: string, oldValue: string, newValue: string)
    requires |oldValue| == 1 && |newValue| == 1
    ensures |Replace(s, oldValue, newValue)| == |s|
    ensures forall i :: 0 <= i < |s| ==>
      Replace(s, oldValue, newValue)[i] == (if s[i] == oldValue[0] then newValue[0] else s[i])
    decreases |s|
  {
    if |s| > 0 {
      ReplaceCharByChar(s[1..], oldValue, newValue);
      var rest := Replace(s[1..], oldValue, newValue);
      var r := Replace(s, oldValue, newValue);
      if s[..1] == oldValue {
        assert s[1..] == s[|oldValue|..];
        assert r == newValue + rest;
      } else {
        assert r == [s[0]] + rest;
      }
      forall i | 0 <= i < |s|
        ensures r[i] == (if s[i] == oldValue[0] then newValue[0] else s[i])
      {
        if i > 0 {
          assert r[i] == rest[i - 1];
          assert s[1..][i - 1] == s[i];
        }
      }
    }
  }

  /** The scan copies everything before the first occurrence of `oldValue`,
      replaces that occurrence, and carries on after it. */
  lemma {:induction false} ReplaceFirstOccurrence(a: string, oldValue: string, newValue: string, b: string)
    requires |oldValue| > 0
    requires forall i :: 0 <= i < |a| ==> !OccursAt(a + oldValue + b, oldValue, i)
    ensures Replace(a + oldValue + b, oldValue, newValue) == a + newValue + Replace(b, oldValue, newValue)
    decreases |a|
  {
    var s := a + oldValue + b;
    if a == [] {
      assert s[..|oldValue|] == oldValue && s[|oldValue|..] == b;
    } else {
      assert !OccursAt(s, oldValue, 0);
      var t := a[1..] + oldValue + b;
      assert s[1..] == t;
      forall i | 0 <= i < |a[1..]| ensures !OccursAt(t, oldValue, i) {
        assert !OccursAt(s, oldValue, i + 1);
        assert s[i + 1..i + 1 + |oldValue|] == t[i..i + |oldValue|];
      }
      ReplaceFirstOccurrence(a[1..], oldValue, newValue, b);
      assert a + newValue + Replace(b, oldValue, newValue) == [a[0]] + (a[1..] + newValue + Replace(b, oldValue, newValue));
    }
  }

  /** A replacement no longer than what it replaces never lengthens the string. */
  lemma {:induction false} ReplaceNoLonger(s: string, oldValue: string, newValue: string)
    requires |oldValue| > 0 && |newValue| <= |oldValue|
    ensures |Replace(s, oldValue, newValue)| <= |s|
    decreases |s|
  {
    if |s| >= |oldValue| {
      if s[..|oldValue|] == oldValue {
        ReplaceNoLonger(s[|oldValue|..], oldValue, newValue);
      } else {
        ReplaceNoLonger(s[1..], oldValue, newValue);
      }
    }
  }

  /** A string in which `oldValue` does not occur is left unchanged. */
  lemma {:induction false} ReplaceAbsent(s: string, oldValue: string, newValue: string)
    requires |oldValue| > 0 && NoOccurrence(s, oldValue)
    ensures Replace(s, oldValue, newValue) == s
    decreases |s|
  {
    if |s| >= |oldValue| {
      assert !OccursAt(s, oldValue, 0);
      forall i | 0 <= i <= |s[1..]| ensures !OccursAt(s[1..], oldValue, i) {
        assert !OccursAt(s, oldValue, i + 1);
        if i + |oldValue| <= |s[1..]| {
          assert s[1..][i..i + |oldValue|] == s[i + 1..i + 1 + |oldValue|];
        }
      }
      ReplaceAbsent(s[1..], oldValue, newValue);
    }
  }

  /** A prefix of the result either is copied unchanged from `s` or contains
      a character of the replacement text. */
  lemma {:induction false} ReplacePrefix(s: string, oldValue: string, newValue: string, m: nat)
    requires |oldValue| > 0 && |newValue| > 0
    requires m <= |Replace(s, oldValue, newValue)|
    ensures var r := Replace(s, oldValue, newValue);
      (m <= |s| && r[..m] == s[..m]) || exists j :: 0 <= j < m && r[j] in newValue
    decreases |s|
  {
    var r := Replace(s, oldValue, newValue);
    if |s| >= |oldValue| && m > 0 {
      if s[..|oldValue|] == oldValue {
        assert r[0] == newValue[0];
      } else {
        var rest := Replace(s[1..], oldValue, newValue);
        assert r == [s[0]] + rest;
        ReplacePrefix(s[1..], oldValue, newValue, m - 1);
        if m - 1 <= |s[1..]| && rest[..m - 1] == s[1..][..m - 1] {
          assert r[..m] == [s[0]] + rest[..m - 1];
          assert s[..m] == [s[0]] + s[1..][..m - 1];
        } else {
          var j :| 0 <= j < m - 1 && rest[j] in newValue;
          assert r[j + 1] == rest[j];
        }
      }
    }
  }

  /** When no character of the replacement text occurs in `oldValue`, the
      result contains no occurrence of `oldValue`. */
  lemma {:induction false} ReplaceRemovesAll(s: string, oldValue: string, newValue: string)
    requires |oldValue| > 0 && |newValue| > 0
    requires forall k :: 0 <= k < |newValue| ==> newValue[k] !in oldValue
    ensures NoOccurrence(Replace(s, oldValue, newValue), oldValue)
    decreases |s|
  {
    var n := |oldValue|;
    var r := Replace(s, oldValue, newValue);
    if |s| < n {
      forall i | 0 <= i <= |r| ensures !OccursAt(r, oldValue, i) { }
    } else if s[..n] == oldValue {
      var rest := Replace(s[n..], oldValue, newValue);
      ReplaceRemovesAll(s[n..], oldValue, newValue);
      assert r == newValue + rest;
      forall i | 0 <= i <= |r| ensures !OccursAt(r, oldValue, i) {
        if i + n <= |r| {
          if i < |newValue| {
            assert r[i..i + n][0] == newValue[i];
            assert newValue[i] !in oldValue;
          } else {
            assert r[i..i + n] == rest[i - |newValue|..i - |newValue| + n];
            assert !OccursAt(rest, oldValue, i - |newValue|);
          }
        }
      }
    } else {
      var rest := Replace(s[1..], oldValue, newValue);
      ReplaceRemovesAll(s[1..], oldValue, newValue);
      assert r == [s[0]] + rest;
      forall i | 0 <= i <= |r| ensures !OccursAt(r, oldValue, i) {
        if i + n <= |r| {
          if i == 0 {
            ReplacePrefix(s[1..], oldValue, newValue, n - 1);
            if n - 1 <= |s[1..]| && rest[..n - 1] == s[1..][..n - 1] {
              assert r[..n] == [s[0]] + rest[..n - 1];
              assert s[..n] == [s[0]] + s[1..][..n - 1];
            } else {
              var j :| 0 <= j < n - 1 && rest[j] in newValue;
              assert r[..n][j + 1] == rest[j];
              assert oldValue[j + 1] in oldValue;
            }
          } else {
            assert r[i..i + n] == rest[i - 1..i - 1 + n];
            assert !OccursAt(rest, oldValue, i - 1);
          }
        }
      }
    }
  }

  // ---------------------------------------------------------------------
  // Comma-separated fields

  /** The fields written one after another with `sep` between them. */
  function Join(fields: seq<string>, sep: char): string
    requires |fields| > 0
    decreases |fields|
  {
    if |fields| == 1 then fields[0] else fields[0] + [sep] + Join(fields[1..], sep)
  }

  /** The fields of `s` between occurrences of `sep`, read left to right. */
  function Split(s: string, sep: char): (fields: seq<string>)
    ensures |fields| > 0
    decreases |s|
  {
    if |s| == 0 then [""]
    else
      var rest := Split(s[1..], sep);
      if s[0] == sep then [""] + rest else [[s[0]] + rest[0]] + rest[1..]
  }

  lemma {:induction false} SplitNoSeparator(a: string, sep: char)
    requires sep !in a
    ensures Split(a, sep) == [a]
    decreases |a|
  {
    if |a| > 0 {
      SplitNoSeparator(a[1..], sep);
      assert [a[0]] + a[1..] == a;
    }
  }

  lemma {:induction false} SplitFirstField(a: string, sep: char, b: string)
    requires sep !in a
    ensures Split(a + [sep] + b, sep) == [a] + Split(b, sep)
    decreases |a|
  {
    var s := a + [sep] + b;
    if |a| == 0 {
      assert s[0] == sep && s[1..] == b;
    } else {
      assert s[1..] == a[1..] + [sep] + b;
      SplitFirstField(a[1..], sep, b);
      assert [a[0]] + a[1..] == a;
    }
  }

  /** Splitting joined fields gives them back when none contains the separator. */
  lemma {:induction false} SplitJoin(fields: seq<string>, sep: char)
    requires |fields| > 0
    requires forall k :: 0 <= k < |fields| ==> sep !in fields[k]
    ensures Split(Join(fields, sep), sep) == fields
    decreases |fields|
  {
    if |fields| == 1 {
      SplitNoSeparator(fields[0], sep);
    } else {
      SplitJoin(fields[1..], sep);
      SplitFirstField(fields[0], sep, Join(fields[1..], sep));
      assert [fields[0]] + fields[1..] == fields;
    }
  }
}
