/** Character, string and byte helpers shared by the modules: ASCII case
    folding (the part of `String.toLowerCase`, `equalsIgnoreCase` and
    `String.CASE_INSENSITIVE_ORDER` the model covers), Kotlin's
    `joinToString`, splitting, and a byte type. */
module Text {

  import opened Wrappers

  /** An octet of a byte stream. */
  type Byte = x: int | 0 <= x < 256

  predicate IsUpper(c: char) { 'A' <= c <= 'Z' }

  predicate IsLower(c: char) { 'a' <= c <= 'z' }

  /** `Character.toLowerCase`, restricted to ASCII letters. */
  function Lower(c: char): (r: char)
    ensures !IsUpper(r)
    ensures IsUpper(c) ==> IsLower(r) && r as int == c as int + 32
    ensures !IsUpper(c) ==> r == c
  {
    if IsUpper(c) then (c as int + 32) as char else c
  }

  /** `Character.toUpperCase`, restricted to ASCII letters. */
  function Upper(c: char): (r: char)
    ensures !IsLower(r)
    ensures IsLower(c) ==> IsUpper(r) && r as int == c as int - 32
    ensures !IsLower(c) ==> r == c
  {
    if IsLower(c) then (c as int - 32) as char else c
  }

  /** `String.toLowerCase`, restricted to ASCII letters. */
  function LowerString(s: string): (r: string)
    ensures |r| == |s|
    ensures forall i :: 0 <= i < |s| ==> r[i] == Lower(s[i])
  {
    seq(|s|, i requires 0 <= i < |s| => Lower(s[i]))
  }

  /** `String.toUpperCase`, restricted to ASCII letters. */
  function UpperString(s: string): (r: string)
    ensures |r| == |s|
    ensures forall i :: 0 <= i < |s| ==> r[i] == Upper(s[i])
  {
    seq(|s|, i requires 0 <= i < |s| => Upper(s[i]))
  }

  lemma LowerStringIdempotent(s: string)
    ensures LowerString(LowerString(s)) == LowerString(s)
  {
  }

  /** One step of `String.regionMatches(ignoreCase = true, ...)`: the
      characters are equal, or equal after upper-casing, or equal after
      upper- and then lower-casing. */
  predicate CharEqualsIgnoreCase(a: char, b: char) {
    a == b || Upper(a) == Upper(b) || Lower(Upper(a)) == Lower(Upper(b))
  }

  /** `String.equalsIgnoreCase`. */
  predicate EqualsIgnoreCase(a: string, b: string) {
    |a| == |b| && forall i :: 0 <= i < |a| ==> CharEqualsIgnoreCase(a[i], b[i])
  }

  /** Case-insensitive equality is equality of the lower-cased strings. */
  lemma EqualsIgnoreCaseIsFoldEquality(a: string, b: string)
    ensures EqualsIgnoreCase(a, b) <==> LowerString(a) == LowerString(b)
  {
    if EqualsIgnoreCase(a, b) {
      forall i | 0 <= i < |a|
        ensures LowerString(a)[i] == LowerString(b)[i]
      {
        assert CharEqualsIgnoreCase(a[i], b[i]);
      }
    }
    if LowerString(a) == LowerString(b) {
      forall i | 0 <= i < |a|
        ensures CharEqualsIgnoreCase(a[i], b[i])
      {
        assert Lower(a[i]) == LowerString(a)[i];
      }
    }
  }

  /** Strict lexicographic order on strings, by character code. Applied to
      lower-cased strings it is the order of `String.CASE_INSENSITIVE_ORDER`. */
  predicate LexLess(x: string, y: string)
    decreases |x|
  {
    if |x| == 0 then |y| > 0
    else if |y| == 0 then false
    else if x[0] != y[0] then x[0] < y[0]
    else LexLess(x[1..], y[1..])
  }

  lemma {:induction false} LexLessIrreflexive(x: string)
    ensures !LexLess(x, x)
    decreases |x|
  {
    if |x| > 0 {
      LexLessIrreflexive(x[1..]);
    }
  }

  lemma {:induction false} LexLessTransitive(x: string, y: string, z: string)
    requires LexLess(x, y) && LexLess(y, z)
    ensures LexLess(x, z)
    decreases |x|
  {
    if |x| > 0 && x[0] == y[0] && y[0] == z[0] {
      LexLessTransitive(x[1..], y[1..], z[1..]);
    }
  }

  lemma {:induction false} LexLessTotal(x: string, y: string)
    ensures x == y || LexLess(x, y) || LexLess(y, x)
    decreases |x|
  {
    if |x| > 0 && |y| > 0 && x[0] == y[0] {
      LexLessTotal(x[1..], y[1..]);
      if x[1..] == y[1..] {
        assert x == [x[0]] + x[1..] && y == [y[0]] + y[1..];
      }
    }
  }

  lemma LexLessAsymmetric(x: string, y: string)
    requires LexLess(x, y)
    ensures !LexLess(y, x)
  {
    if LexLess(y, x) {
      LexLessTransitive(x, y, x);
      LexLessIrreflexive(x);
    }
  }

  /** Kotlin `joinToString(sep)` with no prefix, postfix or limit. */
  function Join(xs: seq<string>, sep: string): string
  {
    if |xs| == 0 then ""
    else if |xs| == 1 then xs[0]
    else xs[0] + sep + Join(xs[1..], sep)
  }

  /** Kotlin's default separator for `joinToString()`. */
  const DefaultSeparator: string := ", "

  /** Splits `s` at every occurrence of `d`; the partner of `Join`. */
  function Split(s: string, d: char): (parts: seq<string>)
    ensures |parts| >= 1
    decreases |s|
  {
    if |s| == 0 then [""]
    else if s[0] == d then [""] + Split(s[1..], d)
    else
      var rest := Split(s[1..], d);
      [[s[0]] + rest[0]] + rest[1..]
  }

  lemma {:induction false} SplitAfterPlainPrefix(x: string, t: string, d: char)
    requires d !in x
    ensures Split(x + t, d) == [x + Split(t, d)[0]] + Split(t, d)[1..]
    decreases |x|
  {
    if |x| > 0 {
      assert (x + t)[0] == x[0];
      assert (x + t)[1..] == x[1..] + t;
      SplitAfterPlainPrefix(x[1..], t, d);
      assert [x[0]] + (x[1..] + Split(t, d)[0]) == x + Split(t, d)[0];
    } else {
      var parts := Split(t, d);
      assert x + t == t;
      assert x + parts[0] == parts[0];
      assert parts == [parts[0]] + parts[1..];
    }
  }

  /** Splitting a join recovers the parts when no part holds the separator. */
  lemma {:induction false} SplitJoin(xs: seq<string>, d: char)
    requires |xs| > 0
    requires forall i :: 0 <= i < |xs| ==> d !in xs[i]
    ensures Split(Join(xs, [d]), d) == xs
    decreases |xs|
  {
    if |xs| == 1 {
      SplitAfterPlainPrefix(xs[0], "", d);
      assert xs[0] + "" == xs[0];
    } else {
      var tail := Join(xs[1..], [d]);
      SplitJoin(xs[1..], d);
      assert Join(xs, [d]) == xs[0] + ([d] + tail);
      SplitAfterPlainPrefix(xs[0], [d] + tail, d);
      assert ([d] + tail)[1..] == tail;
      assert Split([d] + tail, d) == [""] + xs[1..];
      assert xs[0] + "" == xs[0];
    }
  }

  /** Splitting at a separator splits the two sides independently. */
  lemma {:induction false} SplitAppend(a: string, b: string, d: char)
    ensures Split(a + [d] + b, d) == Split(a, d) + Split(b, d)
    decreases |a|
  {
    if |a| == 0 {
      assert a + [d] + b == [d] + b;
      assert ([d] + b)[1..] == b;
    } else {
      assert (a + [d] + b)[0] == a[0];
      assert (a + [d] + b)[1..] == a[1..] + [d] + b;
      SplitAppend(a[1..], b, d);
    }
  }

  /** Joining the parts of a split gives the string back. */
  lemma {:induction false} JoinSplit(s: string, d: char)
    ensures Join(Split(s, d), [d]) == s
    decreases |s|
  {
    if |s| > 0 {
      var rest := Split(s[1..], d);
      JoinSplit(s[1..], d);
      if s[0] == d {
        assert Split(s, d) == [""] + rest;
        assert ([""] + rest)[1..] == rest;
        assert s == [d] + s[1..];
      } else {
        var parts := Split(s, d);
        assert parts == [[s[0]] + rest[0]] + rest[1..];
        if |rest| == 1 {
          assert s == [s[0]] + rest[0];
        } else {
          assert parts[1..] == rest[1..];
          assert s == [s[0]] + (rest[0] + [d] + Join(rest[1..], [d]));
        }
      }
    }
  }

  /** `String.replace(from, to)` for single characters. */
  function ReplaceChar(s: string, from: char, to: char): (r: string)
    ensures |r| == |s|
    ensures forall i :: 0 <= i < |s| ==> r[i] == (if s[i] == from then to else s[i])
  {
    seq(|s|, i requires 0 <= i < |s| => if s[i] == from then to else s[i])
  }

  /** A nullable string in a Kotlin string template: `null` prints as "null". */
  function Render(o: Option<string>): string
  {
    match o
    case Some(s) => s
    case None => "null"
  }
}
