/**
 * Placeholder substitution: every occurrence of a key in a text is
 * replaced, literally, by its value.  Occurrences are found from left to
 * right and do not overlap, as a replace-all over plain strings does.
 */
module Substitution {

  /** `key` occurs in `s` starting at position `i`. */
  predicate OccursAt(s: string, i: nat, key: string)
  {
    i + |key| <= |s| && s[i..i + |key|] == key
  }

  predicate Contains(s: string, key: string)
  {
    exists i: nat :: i <= |s| && OccursAt(s, i, key)
  }

  /** Replaces every occurrence of a non-empty `key`, leftmost first; an empty key changes nothing. */
  function ReplaceAll(text: string, key: string, value: string): string
    decreases |text|
  {
    if |key| == 0 || |text| < |key| then text
    else if text[..|key|] == key then value + ReplaceAll(text[|key|..], key, value)
    else [text[0]] + ReplaceAll(text[1..], key, value)
  }

  // ---------------------------------------------------------------------
  // A reference reading: cut the text at each occurrence, join with the value
  // ---------------------------------------------------------------------

  /** The pieces of `text` between the occurrences of `key`, found from the left. */
  function SplitOn(text: string, key: string): (parts: seq<string>)
    requires |key| > 0
    ensures |parts| >= 1
    decreases |text|
  {
    if |text| < |key| then [text]
    else if text[..|key|] == key then [""] + SplitOn(text[|key|..], key)
    else
      var rest := SplitOn(text[1..], key);
      [[text[0]] + rest[0]] + rest[1..]
  }

  /** The pieces one after the other with `sep` between each two. */
  function JoinWith(parts: seq<string>, sep: string): string
    requires |parts| >= 1
  {
    if |parts| == 1 then parts[0] else parts[0] + sep + JoinWith(parts[1..], sep)
  }

  lemma JoinWithHead(c: char, parts: seq<string>, sep: string)
    requires |parts| >= 1
    ensures JoinWith([[c] + parts[0]] + parts[1..], sep) == [c] + JoinWith(parts, sep)
  {
    var ps := [[c] + parts[0]] + parts[1..];
    assert ps[1..] == parts[1..];
  }

  lemma JoinWithEmptyHead(parts: seq<string>, sep: string)
    requires |parts| >= 1
    ensures JoinWith([""] + parts, sep) == sep + JoinWith(parts, sep)
  {
    var ps := [""] + parts;
    assert ps[1..] == parts;
  }

  /** Cutting at the occurrences and joining with the key gives the text back. */
  lemma {:induction false} SplitOnJoin(text: string, key: string)
    requires |key| > 0
    ensures JoinWith(SplitOn(text, key), key) == text
    decreases |text|
  {
    if |text| >= |key| {
      if text[..|key|] == key {
        var rest := SplitOn(text[|key|..], key);
        assert SplitOn(text, key) == [""] + rest;
        SplitOnJoin(text[|key|..], key);
        JoinWithEmptyHead(rest, key);
        assert text == key + text[|key|..];
      } else {
        var rest := SplitOn(text[1..], key);
        assert SplitOn(text, key) == [[text[0]] + rest[0]] + rest[1..];
        SplitOnJoin(text[1..], key);
        JoinWithHead(text[0], rest, key);
        assert text == [text[0]] + text[1..];
      }
    }
  }

  /** Replacing is joining the same pieces with the value instead. */
  lemma {:induction false} ReplaceIsJoin(text: string, key: string, value: string)
    requires |key| > 0
    ensures ReplaceAll(text, key, value) == JoinWith(SplitOn(text, key), value)
    decreases |text|
  {
    if |text| >= |key| {
      if text[..|key|] == key {
        var rest := SplitOn(text[|key|..], key);
        assert SplitOn(text, key) == [""] + rest;
        assert ReplaceAll(text, key, value) == value + ReplaceAll(text[|key|..], key, value);
        ReplaceIsJoin(text[|key|..], key, value);
        JoinWithEmptyHead(rest, value);
      } else {
        var rest := SplitOn(text[1..], key);
        assert SplitOn(text, key) == [[text[0]] + rest[0]] + rest[1..];
        assert ReplaceAll(text, key, value) == [text[0]] + ReplaceAll(text[1..], key, value);
        ReplaceIsJoin(text[1..], key, value);
        JoinWithHead(text[0], rest, value);
      }
    }
  }

  /** The first piece is where the text starts. */
  lemma {:induction false} SplitOnFirst(text: string, key: string)
    requires |key| > 0
    ensures |SplitOn(text, key)[0]| <= |text| && text[..|SplitOn(text, key)[0]|] == SplitOn(text, key)[0]
    decreases |text|
  {
    if |text| >= |key| && text[..|key|] != key {
      SplitOnFirst(text[1..], key);
    }
  }

  /** Dropping the first character shifts every occurrence one place left. */
  lemma OccursTail(s: string, i: nat, key: string)
    requires |s| > 0
    ensures OccursAt(s[1..], i, key) <==> OccursAt(s, i + 1, key)
  {
    if i + |key| <= |s| - 1 {
      assert s[1..][i..i + |key|] == s[i + 1..i + 1 + |key|];
    }
  }

  /** No piece contains the key: the cuts are at every occurrence. */
  lemma {:induction false} SplitOnKeyFree(text: string, key: string)
    requires |key| > 0
    ensures forall k :: 0 <= k < |SplitOn(text, key)| ==> !Contains(SplitOn(text, key)[k], key)
    decreases |text|
  {
    if |text| < |key| {
    } else if text[..|key|] == key {
      SplitOnKeyFree(text[|key|..], key);
      var parts := SplitOn(text, key);
      assert parts[1..] == SplitOn(text[|key|..], key);
      forall k | 0 <= k < |parts| ensures !Contains(parts[k], key) {
        if k > 0 {
          assert parts[k] == parts[1..][k - 1];
        }
      }
    } else {
      var rest := SplitOn(text[1..], key);
      SplitOnKeyFree(text[1..], key);
      SplitOnFirst(text[1..], key);
      var head := [text[0]] + rest[0];
      forall i: nat | i <= |head| ensures !OccursAt(head, i, key) {
        if i == 0 {
          if |key| <= |head| {
            assert text[1..][..|rest[0]|] == rest[0];
            forall j | 0 <= j < |key| ensures head[j] == text[j] {
              if j > 0 {
                assert head[j] == rest[0][j - 1] == text[1..][j - 1];
              }
            }
            assert head[0..|key|] == text[..|key|];
          }
        } else {
          assert head[1..] == rest[0];
          OccursTail(head, i - 1, key);
          assert !OccursAt(rest[0], i - 1, key);
        }
      }
      var parts := SplitOn(text, key);
      assert parts == [head] + rest[1..];
      forall k | 0 <= k < |parts| ensures !Contains(parts[k], key) {
        if k > 0 {
          assert parts[k] == rest[k];
        }
      }
    }
  }

  // ---------------------------------------------------------------------
  // Texts without the key
  // ---------------------------------------------------------------------

  /** A text in which the key does not occur is left as it is. */
  lemma {:induction false} ReplaceAbsent(text: string, key: string, value: string)
    requires !Contains(text, key)
    ensures ReplaceAll(text, key, value) == text
    decreases |text|
  {
    if |key| > 0 && |text| >= |key| {
      assert !OccursAt(text, 0, key);
      assert text[0..|key|] == text[..|key|];
      forall i: nat | i <= |text[1..]| ensures !OccursAt(text[1..], i, key) {
        OccursTail(text, i, key);
        assert !OccursAt(text, i + 1, key);
      }
      ReplaceAbsent(text[1..], key, value);
      assert text == [text[0]] + text[1..];
    }
  }

  // ---------------------------------------------------------------------
  // Replacement values that cannot recreate the key
  // ---------------------------------------------------------------------

  /**
   * `value` is at least as long as `key`, does not contain it, and no
   * proper part of one end of either lines up with the other: replacing
   * can then never produce a new occurrence of the key.
   */
  predicate NoOverlap(key: string, value: string)
  {
    0 < |key| <= |value| && !Contains(value, key) &&
    (forall m :: 0 < m < |key| ==> key[|key| - m..] != value[..m]) &&
    (forall m :: 0 < m < |key| ==> value[|value| - m..] != key[..m])
  }

  /** Without an occurrence at the start, the first character is kept. */
  lemma KeepsFirst(s: string, key: string, value: string)
    requires |s| > 0 && !OccursAt(s, 0, key)
    ensures ReplaceAll(s, key, value) == [s[0]] + ReplaceAll(s[1..], key, value)
  {
    if |key| > 0 && |key| <= |s| {
      assert s[0..|key|] == s[..|key|];
    } else {
      assert s == [s[0]] + s[1..];
    }
  }

  /** When no occurrence starts before `m`, the first `m` characters are kept. */
  lemma {:induction false} ReplaceKeepsPrefix(s: string, key: string, value: string, m: nat)
    requires |key| > 0 && m <= |s|
    requires forall q: nat :: q < m ==> !OccursAt(s, q, key)
    ensures ReplaceAll(s, key, value) == s[..m] + ReplaceAll(s[m..], key, value)
    decreases m
  {
    if m > 0 {
      ReplaceKeepsPrefix(s, key, value, m - 1);
      var u := s[m - 1..];
      assert ReplaceAll(u, key, value) == [u[0]] + ReplaceAll(u[1..], key, value) by {
        assert !OccursAt(s, m - 1, key);
        if |key| <= |u| {
          assert u[0..|key|] == s[m - 1..m - 1 + |key|];
        }
        KeepsFirst(u, key, value);
      }
      assert u[0] == s[m - 1] && u[1..] == s[m..];
      calc {
        ReplaceAll(s, key, value);
        s[..m - 1] + ReplaceAll(u, key, value);
        s[..m - 1] + ([s[m - 1]] + ReplaceAll(s[m..], key, value));
        (s[..m - 1] + [s[m - 1]]) + ReplaceAll(s[m..], key, value);
        { assert s[..m - 1] + [s[m - 1]] == s[..m]; }
        s[..m] + ReplaceAll(s[m..], key, value);
      }
    }
  }

  /** The first place before `m` where the key occurs, when there is one. */
  lemma {:induction false} FirstOccurrence(s: string, key: string, m: nat) returns (q: nat)
    requires exists p: nat :: p < m && OccursAt(s, p, key)
    ensures q < m && OccursAt(s, q, key)
    ensures forall p: nat :: p < q ==> !OccursAt(s, p, key)
    decreases m
  {
    if exists p: nat :: p < m - 1 && OccursAt(s, p, key) {
      q := FirstOccurrence(s, key, m - 1);
    } else {
      q := m - 1;
    }
  }

  /** A key-free text behind the value gives a key-free whole. */
  lemma JoinedAfterValue(value: string, rest: string, key: string)
    requires NoOverlap(key, value) && !Contains(rest, key)
    ensures !Contains(value + rest, key)
  {
    var r := value + rest;
    forall i: nat | i <= |r| ensures !OccursAt(r, i, key) {
      if i + |key| <= |r| {
        if i >= |value| {
          assert r[i..i + |key|] == rest[i - |value|..i - |value| + |key|];
          assert !OccursAt(rest, i - |value|, key);
        } else if i + |key| <= |value| {
          assert r[i..i + |key|] == value[i..i + |key|];
          assert !OccursAt(value, i, key);
        } else {
          var m := |value| - i;
          assert r[..|value|] == value;
          assert r[i..|value|] == value[i..];
          assert r[i..i + |key|][..m] == r[i..|value|];
          assert |value| - m == i;
          assert value[|value| - m..] != key[..m];
        }
      }
    }
  }

  /** Under `NoOverlap`, the key does not occur in any output. */
  lemma {:induction false} ReplaceRemovesKey(text: string, key: string, value: string)
    requires NoOverlap(key, value)
    ensures !Contains(ReplaceAll(text, key, value), key)
    decreases |text|
  {
    if |text| < |key| {
    } else if text[..|key|] == key {
      ReplaceRemovesKey(text[|key|..], key, value);
      JoinedAfterValue(value, ReplaceAll(text[|key|..], key, value), key);
    } else {
      var t := text[1..];
      var rest := ReplaceAll(t, key, value);
      ReplaceRemovesKey(t, key, value);
      var r := [text[0]] + rest;
      assert r == ReplaceAll(text, key, value);
      forall i: nat | i <= |r| ensures !OccursAt(r, i, key) {
        if i > 0 {
          assert r[1..] == rest;
          OccursTail(r, i - 1, key);
          assert !OccursAt(rest, i - 1, key);
        } else if |key| <= |r| {
          FirstDiffers(text, key, value);
        }
      }
    }
  }

  /** The case of `ReplaceRemovesKey` where the first character is kept. */
  lemma FirstDiffers(text: string, key: string, value: string)
    requires NoOverlap(key, value) && |key| <= |text| && text[..|key|] != key
    requires |key| <= 1 + |ReplaceAll(text[1..], key, value)|
    ensures ([text[0]] + ReplaceAll(text[1..], key, value))[..|key|] != key
  {
    var t := text[1..];
    var m := |key| - 1;
    if exists p: nat :: p < m && OccursAt(t, p, key) {
      var q := FirstOccurrence(t, key, m);
      EarlyOccurrence(text[0], t, key, value, q);
    } else {
      ReplaceKeepsPrefix(t, key, value, m);
      var r := [text[0]] + ReplaceAll(t, key, value);
      assert r[..|key|] == [text[0]] + t[..m];
      assert [text[0]] + t[..m] == text[..|key|];
    }
  }

  lemma SliceMiddle(pre: string, value: string, post: string, n: nat)
    requires n <= |value|
    ensures (pre + value + post)[|pre|..|pre| + n] == value[..n]
  {
  }

  /** An occurrence in the tail before `|key| - 1` puts a prefix of the value where the key would end. */
  lemma EarlyOccurrence(c: char, t: string, key: string, value: string, q: nat)
    requires NoOverlap(key, value) && q < |key| - 1 && OccursAt(t, q, key)
    requires forall p: nat :: p < q ==> !OccursAt(t, p, key)
    ensures |key| <= 1 + |ReplaceAll(t, key, value)|
    ensures ([c] + ReplaceAll(t, key, value))[..|key|] != key
  {
    ReplaceKeepsPrefix(t, key, value, q);
    var u := t[q..];
    assert u[..|key|] == key by {
      assert u[..|key|] == t[q..q + |key|];
    }
    var x := ReplaceAll(u[|key|..], key, value);
    assert ReplaceAll(u, key, value) == value + x;
    var pre := [c] + t[..q];
    var r := pre + value + x;
    assert [c] + ReplaceAll(t, key, value) == r;
    var n := |key| - 1 - q;
    SliceMiddle(pre, value, x, n);
    assert r[..|key|][|key| - n..] == r[|pre|..|pre| + n];
    assert key[|key| - n..] != value[..n];
  }

  /** Under `NoOverlap`, replacing a second time changes nothing. */
  lemma ReplaceIdempotent(text: string, key: string, value: string)
    requires NoOverlap(key, value)
    ensures ReplaceAll(ReplaceAll(text, key, value), key, value) == ReplaceAll(text, key, value)
  {
    ReplaceRemovesKey(text, key, value);
    ReplaceAbsent(ReplaceAll(text, key, value), key, value);
  }
}
