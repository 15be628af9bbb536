/**
 * The order in which the printer lists labels: Rust's ordering of `str`
 * (lexicographic by character) applied to the label after its leading run
 * of ' ' and '*' characters has been trimmed.
 */
module KeyOrder {

  /** The characters `trim_start_matches(|c| c == ' ' || c == '*')` removes. */
  predicate IsMarkerChar(ch: char) {
    ch == ' ' || ch == '*'
  }

  /** The sort key of a label: `s` without its leading ' '/'*' run. */
  function StripKey(s: string): (r: string)
    ensures |r| <= |s|
    ensures forall i :: 0 <= i < |s| - |r| ==> IsMarkerChar(s[i])
    ensures r == [] || !IsMarkerChar(r[0])
    decreases |s|
  {
    if s != [] && IsMarkerChar(s[0]) then StripKey(s[1..]) else s
  }

  /** The sort key is a suffix of the label. */
  lemma {:induction false} StripKeySuffix(s: string)
    ensures StripKey(s) == s[|s| - |StripKey(s)|..]
    decreases |s|
  {
    if s != [] && IsMarkerChar(s[0]) {
      StripKeySuffix(s[1..]);
    }
  }

  /** A prefix made only of marker characters does not change the sort key. */
  lemma {:induction false} StripMarkerPrefix(p: string, s: string)
    requires forall i :: 0 <= i < |p| ==> IsMarkerChar(p[i])
    ensures StripKey(p + s) == StripKey(s)
    decreases |p|
  {
    if p != [] {
      assert (p + s)[0] == p[0] && (p + s)[1..] == p[1..] + s;
      StripMarkerPrefix(p[1..], s);
      assert StripKey(p + s) == StripKey((p + s)[1..]);
    } else {
      assert p + s == s;
    }
  }

  /** Rust's `Ord` on `str`: lexicographic, a proper prefix sorts first. */
  predicate LexLe(a: string, b: string)
    decreases |a|
  {
    a == [] || (b != [] && (a[0] < b[0] || (a[0] == b[0] && LexLe(a[1..], b[1..]))))
  }

  lemma {:induction false} LexLeReflexive(a: string)
    ensures LexLe(a, a)
    decreases |a|
  {
    if a != [] {
      LexLeReflexive(a[1..]);
    }
  }

  lemma {:induction false} LexLeTotal(a: string, b: string)
    ensures LexLe(a, b) || LexLe(b, a)
    decreases |a|
  {
    if a != [] && b != [] && a[0] == b[0] {
      LexLeTotal(a[1..], b[1..]);
    }
  }

  lemma {:induction false} LexLeTransitive(a: string, b: string, c: string)
    requires LexLe(a, b) && LexLe(b, c)
    ensures LexLe(a, c)
    decreases |a|
  {
    if a != [] && a[0] == b[0] && b[0] == c[0] {
      LexLeTransitive(a[1..], b[1..], c[1..]);
    }
  }

  lemma {:induction false} LexLeAntisymmetric(a: string, b: string)
    requires LexLe(a, b) && LexLe(b, a)
    ensures a == b
    decreases |a|
  {
    if a != [] {
      LexLeAntisymmetric(a[1..], b[1..]);
      assert a == [a[0]] + a[1..] && b == [b[0]] + b[1..];
    }
  }

  /**
   * The comparison `sort_by_key` makes: `a` sorts no later than `b` when
   * the keys left after trimming the leading ' '/'*' runs are in `LexLe`
   * order (KeyLeStripped). Written as one recursion over both labels so
   * that the verifier unfolds it one marker at a time.
   */
  predicate KeyLe(a: string, b: string)
    decreases |a| + |b|
  {
    if a != [] && IsMarkerChar(a[0]) then KeyLe(a[1..], b)
    else if b != [] && IsMarkerChar(b[0]) then KeyLe(a, b[1..])
    else LexLe(a, b)
  }

  lemma {:induction false} KeyLeStripped(a: string, b: string)
    ensures KeyLe(a, b) == LexLe(StripKey(a), StripKey(b))
    decreases |a| + |b|
  {
    if a != [] && IsMarkerChar(a[0]) {
      KeyLeStripped(a[1..], b);
    } else if b != [] && IsMarkerChar(b[0]) {
      KeyLeStripped(a, b[1..]);
    }
  }

  lemma KeyLeTotal(a: string, b: string)
    ensures KeyLe(a, b) || KeyLe(b, a)
  {
    KeyLeStripped(a, b);
    KeyLeStripped(b, a);
    LexLeTotal(StripKey(a), StripKey(b));
  }

  lemma KeyLeTransitive(a: string, b: string, c: string)
    requires KeyLe(a, b) && KeyLe(b, c)
    ensures KeyLe(a, c)
  {
    KeyLeStripped(a, b);
    KeyLeStripped(b, c);
    KeyLeStripped(a, c);
    LexLeTransitive(StripKey(a), StripKey(b), StripKey(c));
  }

  lemma KeyLeReflexive(a: string)
    ensures KeyLe(a, a)
  {
    KeyLeStripped(a, a);
    LexLeReflexive(StripKey(a));
  }

  /** Two labels that sort both ways round have the same key: a tie. */
  lemma KeyLeTie(a: string, b: string)
    requires KeyLe(a, b) && KeyLe(b, a)
    ensures StripKey(a) == StripKey(b)
  {
    KeyLeStripped(a, b);
    KeyLeStripped(b, a);
    LexLeAntisymmetric(StripKey(a), StripKey(b));
  }
}
