/**
 * The two pieces of Swift's string library the prospects screen relies on:
 * the `<` ordering of strings used to sort by name, and Foundation's
 * `components(separatedBy:)` used to split a scanned payload into lines.
 * Strings are sequences of characters; Unicode canonical equivalence,
 * which Swift's `<` and `==` honour, is not modelled.
 */
module Text {

  /** Swift's `a < b` on strings, as lexicographic order on characters:
      a proper prefix comes first, otherwise the first differing character decides. */
  predicate LexLess(a: string, b: string)
  {
    if |a| == 0 then |b| > 0
    else if |b| == 0 then false
    else if a[0] != b[0] then a[0] < b[0]
    else LexLess(a[1..], b[1..])
  }

  /** `a <= b` in the same order. */
  predicate LexLessOrEqual(a: string, b: string)
  {
    a == b || LexLess(a, b)
  }

  lemma {:induction false} LexLessIrreflexive(a: string)
    ensures !LexLess(a, a)
  {
    if |a| > 0 {
      LexLessIrreflexive(a[1..]);
    }
  }

  lemma {:induction false} LexLessAsymmetric(a: string, b: string)
    requires LexLess(a, b)
    ensures !LexLess(b, a)
  {
    if |a| > 0 && |b| > 0 && a[0] == b[0] {
      LexLessAsymmetric(a[1..], b[1..]);
    }
  }

  lemma {:induction false} LexLessTransitive(a: string, b: string, c: string)
    requires LexLess(a, b) && LexLess(b, c)
    ensures LexLess(a, c)
  {
    if |a| > 0 && a[0] == b[0] && b[0] == c[0] {
      LexLessTransitive(a[1..], b[1..], c[1..]);
    }
  }

  /** Any two strings are equal or ordered one way or the other. */
  lemma {:induction false} LexTrichotomy(a: string, b: string)
    ensures a == b || LexLess(a, b) || LexLess(b, a)
  {
    if |a| > 0 && |b| > 0 && a[0] == b[0] {
      LexTrichotomy(a[1..], b[1..]);
      if a[1..] == b[1..] {
        assert a == [a[0]] + a[1..] && b == [b[0]] + b[1..];
      }
    }
  }

  /** "Not less than" is transitive: the property `sorted(by:)` needs of its predicate. */
  lemma {:induction false} LexNotLessTransitive(a: string, b: string, c: string)
    requires !LexLess(b, a) && !LexLess(c, b)
    ensures !LexLess(c, a)
  {
    LexTrichotomy(a, b);
    LexTrichotomy(b, c);
    if LexLess(a, b) && LexLess(b, c) {
      LexLessTransitive(a, b, c);
      LexLessAsymmetric(a, c);
    }
  }

  /** Foundation's `s.components(separatedBy: [sep])`: the pieces between
      consecutive separators, empty pieces kept, so "" gives [""]. */
  function Components(s: string, sep: char): (parts: seq<string>)
    ensures |parts| >= 1
    ensures forall i :: 0 <= i < |parts| ==> sep !in parts[i]
  {
    if |s| == 0 then [""]
    else if s[0] == sep then [""] + Components(s[1..], sep)
    else
      var rest := Components(s[1..], sep);
      [[s[0]] + rest[0]] + rest[1..]
  }

  /** The pieces glued back together with the separator between each two. */
  function Join(parts: seq<string>, sep: char): string
  {
    if |parts| == 0 then ""
    else if |parts| == 1 then parts[0]
    else parts[0] + [sep] + Join(parts[1..], sep)
  }

  /** There is one piece more than there are separators. */
  lemma {:induction false} ComponentsCount(s: string, sep: char)
    ensures |Components(s, sep)| == multiset(s)[sep] + 1
  {
    if |s| > 0 {
      ComponentsCount(s[1..], sep);
      assert s == [s[0]] + s[1..];
    }
  }

  /** Splitting loses nothing: joining the pieces gives back the text. */
  lemma {:induction false} JoinComponents(s: string, sep: char)
    ensures Join(Components(s, sep), sep) == s
  {
    if |s| > 0 {
      JoinComponents(s[1..], sep);
      var rest := Components(s[1..], sep);
      if s[0] == sep {
        assert Components(s, sep) == [""] + rest;
      } else {
        var parts := Components(s, sep);
        assert parts == [[s[0]] + rest[0]] + rest[1..];
        if |rest| > 1 {
          assert parts[1..] == rest[1..];
          assert Join(rest, sep) == rest[0] + [sep] + Join(rest[1..], sep);
        }
      }
    }
  }

  /** A separator-free prefix is glued onto the first piece of what follows it. */
  lemma {:induction false} ComponentsOfPrefix(a: string, t: string, sep: char)
    requires sep !in a
    ensures var rest := Components(t, sep);
            Components(a + t, sep) == [a + rest[0]] + rest[1..]
  {
    if |a| > 0 {
      ComponentsOfPrefix(a[1..], t, sep);
      assert (a + t)[1..] == a[1..] + t;
      assert (a + t)[0] == a[0];
      assert [a[0]] + (a[1..] + Components(t, sep)[0]) == a + Components(t, sep)[0];
    } else {
      var rest := Components(t, sep);
      assert a + t == t && a + rest[0] == rest[0];
      assert rest == [rest[0]] + rest[1..];
    }
  }

  /** Pieces free of the separator survive a join followed by a split. */
  lemma {:induction false} ComponentsOfJoin(parts: seq<string>, sep: char)
    requires |parts| >= 1
    requires forall i :: 0 <= i < |parts| ==> sep !in parts[i]
    ensures Components(Join(parts, sep), sep) == parts
  {
    if |parts| == 1 {
      ComponentsOfPrefix(parts[0], "", sep);
      assert parts[0] + "" == parts[0];
    } else {
      var tail := Join(parts[1..], sep);
      ComponentsOfJoin(parts[1..], sep);
      ComponentsOfPrefix(parts[0], [sep] + tail, sep);
      assert Join(parts, sep) == parts[0] + ([sep] + tail);
      assert ([sep] + tail)[1..] == tail;
      assert Components([sep] + tail, sep) == [""] + parts[1..];
      assert parts[0] + "" == parts[0];
      assert parts == [parts[0]] + parts[1..];
    }
  }
}
