/** Values shared by the four indexing engines: optional values, the outcome of a
    call that may raise, files as the program sees them on disk, ASCII string
    helpers, POSIX path helpers, decimal numerals and Python's list slicing. */
module Common {

  datatype Option<T> = None | Some(value: T)

  /** The outcome of a Python call that either returns or raises an exception
      (named by its class, e.g. "ValueError"). */
  datatype Outcome<T> = Done(value: T) | Raised(error: string)

  /** A file as the program sees it: `os.path.exists` is false only for `Absent`;
      loading an `Unreadable` file raises. */
  datatype File<T> = Absent | Unreadable | Holds(content: T) {
    predicate Exists() { !Absent? }
  }

  function Min(a: int, b: int): int { if a <= b then a else b }

  // ---------------------------------------------------------------------------
  // ASCII characters

  predicate IsDigit(c: char) { '0' <= c <= '9' }

  predicate IsAsciiLetter(c: char) { 'a' <= c <= 'z' || 'A' <= c <= 'Z' }

  /** Python's `\w` restricted to ASCII: letters, digits and underscore. */
  predicate IsWordChar(c: char) { IsAsciiLetter(c) || IsDigit(c) || c == '_' }

  /** The ASCII characters for which Python's `str.isspace` holds, i.e. the
      separators of `str.split()` with no argument. */
  predicate IsSpace(c: char) { 9 <= c as int <= 13 || 28 <= c as int <= 32 }

  function ToLower(c: char): char {
    if 'A' <= c <= 'Z' then (c as int + 32) as char else c
  }

  /** `str.lower()` on ASCII text. */
  function Lower(s: string): string {
    seq(|s|, i requires 0 <= i < |s| => ToLower(s[i]))
  }

  predicate StartsWith(s: string, prefix: string) {
    |prefix| <= |s| && s[..|prefix|] == prefix
  }

  predicate EndsWith(s: string, suffix: string) {
    |suffix| <= |s| && s[|s| - |suffix|..] == suffix
  }

  /** The part of `s` before the first `c` (all of `s` when there is none):
      `s.split(c)[0]`. */
  function TakeUntil(s: string, c: char): (r: string)
    ensures c !in r
    ensures StartsWith(s, r)
  {
    if s == [] || s[0] == c then [] else [s[0]] + TakeUntil(s[1..], c)
  }

  lemma {:induction false} TakeUntilAppend(a: string, b: string, c: char)
    requires c !in a
    requires b == [] || b[0] == c
    ensures TakeUntil(a + b, c) == a
  {
    if a != [] {
      assert (a + b)[1..] == a[1..] + b;
      TakeUntilAppend(a[1..], b, c);
    }
  }

  // ---------------------------------------------------------------------------
  // POSIX paths

  /** `os.path.join(dir, name)`: an absolute `name` replaces `dir`, and no
      separator is added after an empty `dir` or one ending in '/'. */
  function Join(dir: string, name: string): string {
    if StartsWith(name, "/") then name
    else if dir == [] || EndsWith(dir, "/") then dir + name
    else dir + "/" + name
  }

  /** `os.path.basename(path)`: everything after the last '/'. */
  function Basename(path: string): (r: string)
    ensures '/' !in r
    ensures |r| <= |path|
  {
    if path == [] || path[|path| - 1] == '/' then []
    else Basename(path[..|path| - 1]) + [path[|path| - 1]]
  }

  lemma {:induction false} BasenameAfterSeparator(prefix: string, name: string)
    requires prefix == [] || prefix[|prefix| - 1] == '/'
    requires '/' !in name
    ensures Basename(prefix + name) == name
  {
    if name != [] {
      var n := |name| - 1;
      assert (prefix + name)[..|prefix + name| - 1] == prefix + name[..n];
      BasenameAfterSeparator(prefix, name[..n]);
      assert name == name[..n] + [name[n]];
    } else {
      assert prefix + name == prefix;
    }
  }

  /** The basename of a joined path is the name that was joined. */
  lemma BasenameOfJoin(dir: string, name: string)
    requires '/' !in name
    ensures Basename(Join(dir, name)) == name
  {
    if dir == [] || EndsWith(dir, "/") {
      BasenameAfterSeparator(dir, name);
    } else {
      BasenameAfterSeparator(dir + "/", name);
      assert dir + "/" + name == (dir + "/") + name;
    }
  }

  /** Index at which the last component of `path` starts, just after its last '/'. */
  function ComponentStart(path: string): (b: nat)
    ensures b <= |path|
  {
    |path| - |Basename(path)|
  }

  /** Index at which `os.path.splitext` cuts a path: the last '.', provided it lies
      in the last component and some character of that component before it is not
      a '.'; otherwise the path has no extension and the cut is at its end. */
  function ExtensionStart(name: string): (k: nat)
    ensures k <= |name|
  {
    var b, d := ComponentStart(name), LastDot(name);
    if b <= d && exists j :: b <= j < d && name[j] != '.' then d else |name|
  }

  function LastDot(s: string): (d: int)
    ensures -1 <= d < |s|
    ensures 0 <= d ==> s[d] == '.' && '.' !in s[d + 1..]
    ensures d == -1 ==> '.' !in s
  {
    if s == [] then -1
    else if s[|s| - 1] == '.' then |s| - 1
    else
      var d := LastDot(s[..|s| - 1]);
      assert s[d + 1..] == s[..|s| - 1][d + 1..] + [s[|s| - 1]];
      d
  }

  /** `os.path.splitext(name)[0]` */
  function Stem(name: string): string { name[..ExtensionStart(name)] }

  /** `basename` is the tail of the path after its last '/'. */
  lemma {:induction false} BasenameIsSuffix(path: string)
    ensures Basename(path) == path[ComponentStart(path)..]
  {
    if path != [] && path[|path| - 1] != '/' {
      var n := |path| - 1;
      BasenameIsSuffix(path[..n]);
      assert path[ComponentStart(path)..] == path[..n][ComponentStart(path[..n])..] + [path[n]];
    }
  }

  /** `splitext` cuts only inside the last path component: the stem keeps every
      directory, and the extension holds no '/'. */
  lemma ExtensionInLastComponent(path: string)
    ensures ComponentStart(path) <= ExtensionStart(path)
    ensures '/' !in Extension(path)
  {
    var b, k := ComponentStart(path), ExtensionStart(path);
    BasenameIsSuffix(path);
    forall i | k <= i < |path|
      ensures path[i] != '/'
    {
      assert path[i] == Basename(path)[i - b];
    }
  }

  /** For example, a '.' in a directory name is no extension: `splitext("a.b/c")`
      cuts nothing. */
  lemma DirectoryDotIsNoExtension()
    ensures Stem("a.b/c") == "a.b/c"
  {
    assert Basename("a.b/c") == "c" by {
      BasenameAfterSeparator("a.b/", "c");
      assert "a.b/" + "c" == "a.b/c";
    }
  }

  /** `os.path.splitext(name)[1]`: empty, or a '.' followed by no other '.'. */
  function Extension(name: string): (e: string)
    ensures e == [] || (e[0] == '.' && '.' !in e[1..])
    ensures Stem(name) + e == name
  {
    var k := ExtensionStart(name);
    assert name[..k] + name[k..] == name;
    name[k..]
  }

  // ---------------------------------------------------------------------------
  // Decimal numerals: Python's `str(n)` and `int(s)` on non-negative integers

  function DigitChar(d: nat): (c: char)
    requires d < 10
    ensures IsDigit(c)
  {
    ('0' as int + d) as char
  }

  function DigitValue(c: char): nat
    requires IsDigit(c)
  {
    c as int - '0' as int
  }

  predicate AllDigits(s: string) { forall i :: 0 <= i < |s| ==> IsDigit(s[i]) }

  /** `str(n)`: the shortest decimal numeral of `n`. */
  function NatToString(n: nat): (s: string)
    ensures |s| > 0 && AllDigits(s)
    ensures s[0] != '0' || n == 0
  {
    if n < 10 then [DigitChar(n)]
    else NatToString(n / 10) + [DigitChar(n % 10)]
  }

  /** The value of a string of decimal digits. */
  function DigitsValue(s: string): nat
    requires AllDigits(s)
  {
    if s == [] then 0
    else DigitsValue(s[..|s| - 1]) * 10 + DigitValue(s[|s| - 1])
  }

  /** Reading back a numeral gives the number it was written from. */
  lemma {:induction false} NatToStringRoundTrip(n: nat)
    ensures DigitsValue(NatToString(n)) == n
  {
    if n >= 10 {
      var s := NatToString(n);
      assert s[..|s| - 1] == NatToString(n / 10);
      NatToStringRoundTrip(n / 10);
    }
  }

  // ---------------------------------------------------------------------------
  // Python list slicing

  /** `s[:k]` in Python: a negative `k` counts from the end. */
  function PyTake<T>(s: seq<T>, k: int): (r: seq<T>)
    ensures |r| <= |s| && r == s[..|r|]
    ensures 0 <= k ==> |r| == Min(k, |s|)
    ensures k < 0 ==> |r| == if |s| + k < 0 then 0 else |s| + k
  {
    if 0 <= k then (if k <= |s| then s[..k] else s)
    else if |s| + k < 0 then []
    else s[..|s| + k]
  }

  // ---------------------------------------------------------------------------
  // Keeping the elements of a list that pass a test, in order

  /** `[x for x in s if keep(x)]` */
  function Filter<T>(s: seq<T>, keep: T -> bool): (r: seq<T>)
    ensures |r| <= |s|
  {
    if s == [] then []
    else
      var init := Filter(s[..|s| - 1], keep);
      assert s == s[..|s| - 1] + [s[|s| - 1]];
      if keep(s[|s| - 1]) then init + [s[|s| - 1]] else init
  }

  /** The filter keeps exactly the elements that pass the test. */
  lemma {:induction false} FilterMembers<T>(s: seq<T>, keep: T -> bool)
    ensures forall i :: 0 <= i < |Filter(s, keep)| ==> Filter(s, keep)[i] in s && keep(Filter(s, keep)[i])
    ensures forall i :: 0 <= i < |s| && keep(s[i]) ==> s[i] in Filter(s, keep)
  {
    if s != [] {
      var n := |s| - 1;
      FilterMembers(s[..n], keep);
      assert s == s[..n] + [s[n]];
      forall i | 0 <= i < n && keep(s[i]) ensures s[i] in Filter(s, keep) {
        assert s[..n][i] == s[i];
      }
    }
  }

  lemma {:induction false} FilterAppend<T>(a: seq<T>, b: seq<T>, keep: T -> bool)
    ensures Filter(a + b, keep) == Filter(a, keep) + Filter(b, keep)
  {
    if b != [] {
      var n := |b| - 1;
      assert (a + b)[..|a + b| - 1] == a + b[..n];
      FilterAppend(a, b[..n], keep);
    } else {
      assert a + b == a;
    }
  }

  lemma FilterCons<T>(x: T, s: seq<T>, keep: T -> bool)
    ensures Filter([x] + s, keep) == (if keep(x) then [x] else []) + Filter(s, keep)
  {
    FilterAppend([x], s, keep);
    var one := Filter([x], keep);
    assert [x][..0] == [];
    assert Filter([x][..0], keep) == [];
  }

  /** One more element of the input extends the output by that element or not at all. */
  lemma FilterSnoc<T>(s: seq<T>, x: T, keep: T -> bool)
    ensures Filter(s + [x], keep) == if keep(x) then Filter(s, keep) + [x] else Filter(s, keep)
  {
    assert (s + [x])[..|s|] == s;
  }

  /** `idx` lists, in increasing order, the positions in `b` of the elements of `a`. */
  ghost predicate Embeds<T>(a: seq<T>, b: seq<T>, idx: seq<nat>) {
    && |idx| == |a|
    && (forall i :: 0 <= i < |idx| ==> idx[i] < |b| && a[i] == b[idx[i]])
    && (forall i, j :: 0 <= i < j < |idx| ==> idx[i] < idx[j])
  }

  /** `a` is `b` with some elements left out and the rest in their order. */
  ghost predicate SubsequenceOf<T>(a: seq<T>, b: seq<T>) {
    exists idx :: Embeds(a, b, idx)
  }

  /** What a filter keeps stays in input order. */
  lemma {:induction false} FilterIsSubsequence<T>(s: seq<T>, keep: T -> bool)
    ensures SubsequenceOf(Filter(s, keep), s)
  {
    if s == [] {
      assert Embeds([], s, []);
    } else {
      var n := |s| - 1;
      FilterIsSubsequence(s[..n], keep);
      var idx :| Embeds(Filter(s[..n], keep), s[..n], idx);
      if keep(s[n]) {
        assert Embeds(Filter(s, keep), s, idx + [n]);
      } else {
        assert Embeds(Filter(s, keep), s, idx);
      }
    }
  }

  /** Filtering twice with the same test changes nothing the second time. */
  lemma {:induction false} FilterIdempotent<T>(s: seq<T>, keep: T -> bool)
    ensures Filter(Filter(s, keep), keep) == Filter(s, keep)
  {
    if s != [] {
      var n := |s| - 1;
      FilterIdempotent(s[..n], keep);
      if keep(s[n]) {
        FilterSnoc(Filter(s[..n], keep), s[n], keep);
      }
    }
  }

  /** A list whose every element passes the test is its own filter. */
  lemma {:induction false} FilterKeepsAll<T>(s: seq<T>, keep: T -> bool)
    requires forall i :: 0 <= i < |s| ==> keep(s[i])
    ensures Filter(s, keep) == s
  {
    if s != [] {
      FilterKeepsAll(s[..|s| - 1], keep);
      assert s == s[..|s| - 1] + [s[|s| - 1]];
    }
  }

  /** A list none of whose elements passes the test filters to nothing. */
  lemma {:induction false} FilterKeepsNone<T>(s: seq<T>, keep: T -> bool)
    requires forall i :: 0 <= i < |s| ==> !keep(s[i])
    ensures Filter(s, keep) == []
  {
    if s != [] {
      FilterKeepsNone(s[..|s| - 1], keep);
    }
  }

  /** `Filter` seen from the front: the first element is kept or not, then the rest is filtered. */
  lemma FilterHead<T>(s: seq<T>, keep: T -> bool)
    requires s != []
    ensures Filter(s, keep) == (if keep(s[0]) then [s[0]] else []) + Filter(s[1..], keep)
  {
    assert s == [s[0]] + s[1..];
    FilterCons(s[0], s[1..], keep);
  }

  // ---------------------------------------------------------------------------
  // Nested comprehensions

  /** `[y for x in xs for y in f(x)]` */
  function FlatMap<A, B>(xs: seq<A>, f: A -> seq<B>): seq<B> {
    if xs == [] then [] else FlatMap(xs[..|xs| - 1], f) + f(xs[|xs| - 1])
  }

  lemma FlatMapSnoc<A, B>(xs: seq<A>, x: A, f: A -> seq<B>)
    ensures FlatMap(xs + [x], f) == FlatMap(xs, f) + f(x)
  {
    assert (xs + [x])[..|xs|] == xs;
  }

  lemma FlatMapNext<A, B>(xs: seq<A>, k: nat, f: A -> seq<B>)
    requires k < |xs|
    ensures FlatMap(xs[..k + 1], f) == FlatMap(xs[..k], f) + f(xs[k])
  {
    assert xs[..k + 1] == xs[..k] + [xs[k]];
    FlatMapSnoc(xs[..k], xs[k], f);
  }

  /** The nested comprehension holds exactly what some `f(x)` holds. */
  lemma {:induction false} FlatMapMembers<A, B>(xs: seq<A>, f: A -> seq<B>, y: B)
    ensures y in FlatMap(xs, f) <==> exists k :: 0 <= k < |xs| && y in f(xs[k])
  {
    if xs != [] {
      var n := |xs| - 1;
      FlatMapMembers(xs[..n], f, y);
      if y in FlatMap(xs, f) {
        if y in FlatMap(xs[..n], f) {
          var k :| 0 <= k < n && y in f(xs[..n][k]);
          assert xs[..n][k] == xs[k];
        } else {
          assert y in f(xs[n]);
        }
      } else {
        forall k | 0 <= k < |xs|
          ensures y !in f(xs[k])
        {
          if k < n {
            assert xs[..n][k] == xs[k];
          }
        }
      }
    }
  }
}
