/** The few Python string and path operations the batch command line relies on. */
module Text {

  /** Number of occurrences of `c` in `s` (Python's `s.count(c)`). */
  function Count(s: string, c: char): nat
  {
    if |s| == 0 then 0 else (if s[0] == c then 1 else 0) + Count(s[1..], c)
  }

  lemma {:induction false} CountZero(s: string, c: char)
    ensures Count(s, c) == 0 <==> c !in s
  {
    if |s| > 0 {
      CountZero(s[1..], c);
      assert s == [s[0]] + s[1..];
    }
  }

  /** Python's `s.split(sep)` for a one-character separator: every occurrence
      of `sep` cuts, so the result has one more part than `sep` occurrences. */
  function Split(s: string, sep: char): (parts: seq<string>)
    ensures |parts| == Count(s, sep) + 1
    ensures forall i :: 0 <= i < |parts| ==> sep !in parts[i]
  {
    if |s| == 0 then [""]
    else
      var rest := Split(s[1..], sep);
      if s[0] == sep then [""] + rest
      else [[s[0]] + rest[0]] + rest[1..]
  }

  /** Python's `sep.join(parts)`. */
  function Join(parts: seq<string>, sep: char): string
  {
    if |parts| == 0 then ""
    else if |parts| == 1 then parts[0]
    else parts[0] + [sep] + Join(parts[1..], sep)
  }

  /** Splitting and joining again gives back the original string. */
  lemma {:induction false} JoinSplit(s: string, sep: char)
    ensures Join(Split(s, sep), sep) == s
  {
    if |s| > 0 {
      var rest := Split(s[1..], sep);
      JoinSplit(s[1..], sep);
      if s[0] == sep {
        assert Split(s, sep) == [""] + rest;
        assert ([""] + rest)[1..] == rest;
      } else {
        var parts := Split(s, sep);
        assert parts[0] == [s[0]] + rest[0];
        assert parts[1..] == rest[1..];
        if |rest| == 1 {
          assert s == [s[0]] + s[1..];
        } else {
          assert Join(rest, sep) == rest[0] + [sep] + Join(rest[1..], sep);
          assert s == [s[0]] + s[1..];
        }
      }
    }
  }

  /** A string without the separator splits into itself alone. */
  lemma {:induction false} SplitWithoutSeparator(s: string, sep: char)
    requires sep !in s
    ensures Split(s, sep) == [s]
  {
    CountZero(s, sep);
    if |s| > 0 {
      SplitWithoutSeparator(s[1..], sep);
      assert [s[0]] + s[1..] == s;
    }
  }

  /** Splitting `a + sep + b` with `sep` in neither part recovers `[a, b]`. */
  lemma {:induction false} SplitPair(a: string, b: string, sep: char)
    requires sep !in a && sep !in b
    ensures Split(a + [sep] + b, sep) == [a, b]
  {
    var s := a + [sep] + b;
    if |a| == 0 {
      assert s[1..] == b;
      SplitWithoutSeparator(b, sep);
    } else {
      assert s[0] == a[0];
      assert s[1..] == a[1..] + [sep] + b;
      SplitPair(a[1..], b, sep);
      assert [a[0]] + a[1..] == a;
    }
  }

  /** ASCII upper-case letter. */
  predicate IsUpper(c: char)
  {
    'A' <= c <= 'Z'
  }

  /** Python's `c.lower()` restricted to ASCII letters. */
  function LowerChar(c: char): (r: char)
    ensures !IsUpper(r)
    ensures IsUpper(c) ==> r as int == c as int + 32
    ensures !IsUpper(c) ==> r == c
  {
    if IsUpper(c) then (c as int + 32) as char else c
  }

  /** Python's `s.lower()` restricted to ASCII letters. */
  function Lower(s: string): (r: string)
    ensures |r| == |s|
    ensures forall i :: 0 <= i < |r| ==> !IsUpper(r[i])
    ensures forall i :: 0 <= i < |s| && !IsUpper(s[i]) ==> r[i] == s[i]
    ensures forall i :: 0 <= i < |s| && IsUpper(s[i]) ==> r[i] as int == s[i] as int + 32
  {
    seq(|s|, i requires 0 <= i < |s| => LowerChar(s[i]))
  }

  /** Lower-casing twice is lower-casing once. */
  lemma LowerIdempotent(s: string)
    ensures Lower(Lower(s)) == Lower(s)
  {
  }

  /** A string already in lower case is left unchanged. */
  lemma LowerOfLowerCase(s: string)
    requires forall i :: 0 <= i < |s| ==> !IsUpper(s[i])
    ensures Lower(s) == s
  {
  }

  /** Every character of `s` is `c`. */
  predicate AllChar(s: string, c: char)
  {
    forall i :: 0 <= i < |s| ==> s[i] == c
  }

  /** Python's `s.rstrip(c)`: drop every trailing `c`. */
  function RStrip(s: string, c: char): (r: string)
    ensures r <= s
    ensures |r| == 0 || r[|r| - 1] != c
    ensures AllChar(s[|r|..], c)
  {
    if |s| > 0 && s[|s| - 1] == c then RStrip(s[..|s| - 1], c) else s
  }

  /** `s.rfind(c) + 1`: the index just past the last `c`, or 0 when there is none. */
  function AfterLast(s: string, c: char): (i: nat)
    ensures i <= |s|
    ensures i > 0 ==> s[i - 1] == c
    ensures c !in s[i..]
  {
    if |s| == 0 then 0
    else if s[|s| - 1] == c then |s|
    else
      var i := AfterLast(s[..|s| - 1], c);
      assert s[i..] == s[..|s| - 1][i..] + [s[|s| - 1]];
      i
  }

  /** Python's `posixpath.dirname(p)`: everything before the last slash, with
      trailing slashes stripped unless the head consists of slashes only. */
  function Dirname(p: string): (d: string)
    ensures d <= p
    ensures d == "" <==> '/' !in p
    ensures |d| <= AfterLast(p, '/') && AllChar(p[|d|..AfterLast(p, '/')], '/')
    ensures |d| > 0 && d[|d| - 1] == '/' ==> AllChar(d, '/')
    ensures AllChar(d, '/') ==> |d| == AfterLast(p, '/')
  {
    var i := AfterLast(p, '/');
    var head := p[..i];
    if |head| > 0 && !AllChar(head, '/') then
      var d := RStrip(head, '/');
      assert d <= head;
      assert p[|d|..i] == head[|d|..];
      assert |d| > 0;
      assert !AllChar(d, '/') by {
        assert d[|d| - 1] != '/';
      }
      d
    else
      assert |head| > 0 ==> p[i - 1] in p;
      assert '/' in p ==> i > 0;
      head
  }

  /** Python's `posixpath.join(a, b)` for two components. */
  function PathJoin(a: string, b: string): (r: string)
    ensures |b| > 0 && b[0] == '/' ==> r == b
    ensures !(|b| > 0 && b[0] == '/') && (|a| == 0 || a[|a| - 1] == '/') ==> r == a + b
    ensures !(|b| > 0 && b[0] == '/') && |a| > 0 && a[|a| - 1] != '/' ==> r == a + "/" + b
    ensures |b| <= |r| && r[|r| - |b|..] == b
  {
    if |b| > 0 && b[0] == '/' then b
    else if |a| == 0 || a[|a| - 1] == '/' then a + b
    else a + "/" + b
  }

  /** `dirname` undoes `join` for a relative last component without slashes. */
  lemma DirnameOfJoin(d: string, base: string)
    requires |d| > 0 && d[|d| - 1] != '/'
    requires '/' !in base
    ensures Dirname(PathJoin(d, base)) == d
  {
    var p := d + "/" + base;
    assert |base| > 0 ==> base[0] in base;
    assert PathJoin(d, base) == p;
    assert p[..|d| + 1] == d + "/";
    assert p[|d| + 1..] == base;
    var i := AfterLast(p, '/');
    assert p[|d|] == '/';
    assert i == |d| + 1;
    var head := p[..i];
    assert head == d + "/";
    assert head[|d| - 1] != '/';
    assert RStrip(head, '/') == RStrip(d, '/');
  }
}
