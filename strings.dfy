/** The Java string and path operations the step applies to file names, over seq<char>. */
module Strings {

  /** `Character.toLowerCase` on the ASCII letters; every other character is kept. */
  function LowerChar(c: char): char {
    if 'A' <= c <= 'Z' then (c as int + 32) as char else c
  }

  /** `String.toLowerCase()`, character by character. */
  function Lower(s: string): string {
    seq(|s|, i requires 0 <= i < |s| => LowerChar(s[i]))
  }

  /** `String.endsWith(suffix)`. */
  predicate EndsWith(s: string, suffix: string) {
    |suffix| <= |s| && s[|s| - |suffix|..] == suffix
  }

  /**
   * `s.toLowerCase().endsWith(suffix)`, compared from the last character backwards;
   * LowerEndsWithIsEndsWithLower shows it is exactly that.
   */
  predicate LowerEndsWith(s: string, suffix: string)
    decreases |suffix|
  {
    suffix == [] ||
    (s != [] && LowerChar(s[|s| - 1]) == suffix[|suffix| - 1] && LowerEndsWith(s[..|s| - 1], suffix[..|suffix| - 1]))
  }

  /** `target` occurs in `s` at index `i`. */
  predicate OccursAt(s: string, target: string, i: nat) {
    i + |target| <= |s| && s[i..i + |target|] == target
  }

  ghost predicate Contains(s: string, target: string) {
    exists i: nat :: OccursAt(s, target, i)
  }

  /**
   * `String.replace(target, replacement)`: every occurrence of `target`, scanned from the
   * left without overlaps, is replaced.
   */
  function ReplaceAll(s: string, target: string, replacement: string): string
    requires target != []
    decreases |s|
  {
    if |s| < |target| then s
    else if s[..|target|] == target then replacement + ReplaceAll(s[|target|..], target, replacement)
    else [s[0]] + ReplaceAll(s[1..], target, replacement)
  }

  /** `Paths.get(dir, name).toString()`: the name joined under the directory. */
  function Join(dir: string, name: string): string {
    dir + "/" + name
  }

  /** Lower-casing distributes over concatenation. */
  lemma LowerAppend(a: string, b: string)
    ensures Lower(a + b) == Lower(a) + Lower(b)
  {
    assert forall i | 0 <= i < |a + b| :: Lower(a + b)[i] == (Lower(a) + Lower(b))[i];
  }

  /** Lower-casing twice is lower-casing once. */
  lemma LowerIdempotent(s: string)
    ensures Lower(Lower(s)) == Lower(s)
  {
    assert forall i | 0 <= i < |s| :: Lower(Lower(s))[i] == Lower(s)[i];
  }

  /** The backward comparison agrees with lower-casing the whole string and testing its end. */
  lemma {:induction false} LowerEndsWithIsEndsWithLower(s: string, suffix: string)
    ensures LowerEndsWith(s, suffix) <==> EndsWith(Lower(s), suffix)
    decreases |suffix|
  {
    var l := Lower(s);
    if suffix == [] {
      assert l[|l|..] == [];
    } else if s == [] {
    } else {
      var init := s[..|s| - 1];
      var rest := suffix[..|suffix| - 1];
      LowerEndsWithIsEndsWithLower(init, rest);
      assert Lower(init) == l[..|s| - 1];
      if |suffix| <= |s| {
        var tail := l[|s| - |suffix|..];
        assert tail == Lower(init)[|init| - |rest|..] + [LowerChar(s[|s| - 1])];
        assert suffix == rest + [suffix[|suffix| - 1]];
      }
    }
  }

  /** A string in which the target does not occur is left as it is. */
  lemma {:induction false} ReplaceAllWithoutMatch(s: string, target: string, replacement: string)
    requires target != [] && !Contains(s, target)
    ensures ReplaceAll(s, target, replacement) == s
    decreases |s|
  {
    if |s| >= |target| {
      assert !OccursAt(s, target, 0);
      assert s[..|target|] != target;
      forall i: nat | OccursAt(s[1..], target, i)
        ensures false
      {
        assert s[1..][i..i + |target|] == s[i + 1..i + 1 + |target|];
        assert OccursAt(s, target, i + 1);
      }
      ReplaceAllWithoutMatch(s[1..], target, replacement);
    }
  }

  /**
   * Replacing ".epub" in a name that ends with ".epub": the final extension becomes ".txt"
   * and the base is treated on its own, because no match can straddle the base and the suffix.
   */
  lemma {:induction false} ReplaceEpubSuffix(base: string)
    ensures ReplaceAll(base + ".epub", ".epub", ".txt") == ReplaceAll(base, ".epub", ".txt") + ".txt"
    decreases |base|
  {
    var s := base + ".epub";
    if |base| < 5 {
      ReplaceEpubSuffixShort(base);
    } else if base[..5] == ".epub" {
      assert s[..5] == base[..5];
      assert s[5..] == base[5..] + ".epub";
      ReplaceEpubSuffix(base[5..]);
    } else {
      assert s[..5] == base[..5];
      assert s[1..] == base[1..] + ".epub";
      assert s[0] == base[0];
      ReplaceEpubSuffix(base[1..]);
    }
  }

  /** ReplaceEpubSuffix for a base shorter than ".epub", which is kept as it is. */
  lemma {:induction false} ReplaceEpubSuffixShort(base: string)
    requires |base| < 5
    ensures ReplaceAll(base + ".epub", ".epub", ".txt") == base + ".txt"
    decreases |base|
  {
    var s := base + ".epub";
    if base == [] {
      assert s == ".epub" && s[..5] == ".epub" && s[5..] == [];
    } else {
      assert s[|base|] == '.';
      assert s[..5][|base|] == '.' && ".epub"[|base|] != '.';
      assert s[1..] == base[1..] + ".epub";
      ReplaceEpubSuffixShort(base[1..]);
      assert [base[0]] + base[1..] == base;
    }
  }
}
