/**
  String-level path helpers: POSIX `os.path.join` and the type slug
  (`type.replace('/', '-').lower()`).
 */
module Paths {

  predicate IsAbsolute(s: string)
  {
    |s| > 0 && s[0] == '/'
  }

  predicate EndsInSlash(s: string)
  {
    |s| > 0 && s[|s| - 1] == '/'
  }

  predicate IsPrefix(p: string, s: string)
  {
    |p| <= |s| && s[..|p|] == p
  }

  predicate IsSuffix(p: string, s: string)
  {
    |p| <= |s| && s[|s| - |p|..] == p
  }

  /** `os.path.join(a, b)`: an absolute `b` discards `a`; otherwise one '/'
      separates them unless `a` is empty or already ends in '/'. */
  function Join2(a: string, b: string): string
  {
    if IsAbsolute(b) then b
    else if a == "" || EndsInSlash(a) then a + b
    else a + "/" + b
  }

  /** The joined path ends in `b`; it is `b` itself when `b` is absolute, and
      otherwise starts with `a`, with exactly one '/' inserted when needed. */
  lemma Join2Shape(a: string, b: string)
    ensures IsSuffix(b, Join2(a, b))
    ensures IsAbsolute(b) ==> Join2(a, b) == b
    ensures !IsAbsolute(b) ==> IsPrefix(a, Join2(a, b))
    ensures !IsAbsolute(b) && a != "" && !EndsInSlash(a) ==>
      |Join2(a, b)| == |a| + 1 + |b| && Join2(a, b)[|a|] == '/'
    ensures !IsAbsolute(b) && (a == "" || EndsInSlash(a)) ==> |Join2(a, b)| == |a| + |b|
  {
  }

  /** `os.path.join(a, *bs)`. */
  function Join(a: string, bs: seq<string>): string
    decreases |bs|
  {
    if |bs| == 0 then a else Join(Join2(a, bs[0]), bs[1..])
  }

  /** Joining in two steps is joining once: `join(join(a, *bs), *cs) == join(a, *(bs + cs))`. */
  lemma {:induction false} JoinAppend(a: string, bs: seq<string>, cs: seq<string>)
    ensures Join(a, bs + cs) == Join(Join(a, bs), cs)
    decreases |bs|
  {
    if |bs| > 0 {
      assert (bs + cs)[1..] == bs[1..] + cs;
      JoinAppend(Join2(a, bs[0]), bs[1..], cs);
    } else {
      assert bs + cs == cs;
    }
  }

  /** With relative, slash-free middle parts, joining is plain concatenation with '/'. */
  lemma JoinRelative(a: string, b: string, c: string)
    requires a != "" && !EndsInSlash(a)
    requires b != "" && !IsAbsolute(b) && !EndsInSlash(b)
    requires !IsAbsolute(c)
    ensures Join(a, [b, c]) == a + "/" + b + "/" + c
  {
    assert [b, c][1..] == [c];
    var ab := Join2(a, b);
    assert ab == a + "/" + b;
    assert ab[|ab| - 1] == b[|b| - 1];
    assert [c][1..] == [];
    assert Join(a, [b, c]) == Join(ab, [c]) == Join2(ab, c);
  }

  /** The three-part form used for configuration files. */
  lemma JoinRelative3(a: string, b: string, c: string, d: string)
    requires a != "" && !EndsInSlash(a)
    requires b != "" && !IsAbsolute(b) && !EndsInSlash(b)
    requires c != "" && !IsAbsolute(c) && !EndsInSlash(c)
    requires !IsAbsolute(d)
    ensures Join(a, [b, c, d]) == a + "/" + b + "/" + c + "/" + d
  {
    JoinAppend(a, [b, c], [d]);
    assert [b, c] + [d] == [b, c, d];
    JoinRelative(a, b, c);
    var abc := a + "/" + b + "/" + c;
    assert abc[|abc| - 1] == c[|c| - 1];
    var last: seq<string> := [d];
    assert last[1..] == [];
    assert Join(abc, [d]) == Join(Join2(abc, d), last[1..]);
  }

  /** An absolute last part wins, whatever precedes it. */
  lemma JoinAbsolute(a: string, b: string, c: string)
    requires IsAbsolute(c)
    ensures Join(a, [b, c]) == c
  {
    assert [b, c][1..] == [c];
    assert [c][1..] == [];
    assert Join(a, [b, c]) == Join(Join2(a, b), [c]) == Join2(Join2(a, b), c);
  }

  /** Joining onto a non-empty start never gives the empty path. */
  lemma {:induction false} JoinNonEmpty(a: string, bs: seq<string>)
    requires a != ""
    ensures Join(a, bs) != ""
    decreases |bs|
  {
    if |bs| > 0 {
      JoinNonEmpty(Join2(a, bs[0]), bs[1..]);
    }
  }

  function LowerChar(c: char): char
  {
    if 'A' <= c <= 'Z' then (c as int + 32) as char else c
  }

  /** `s.replace('/', '-').lower()` with ASCII case mapping. */
  function Slug(s: string): (r: string)
    ensures |r| == |s|
    ensures forall i :: 0 <= i < |r| ==> r[i] != '/'
    ensures forall i :: 0 <= i < |r| ==> r[i] == (if s[i] == '/' then '-' else LowerChar(s[i]))
  {
    seq(|s|, i requires 0 <= i < |s| => if s[i] == '/' then '-' else LowerChar(s[i]))
  }

  /** A slug is its own slug. */
  lemma SlugIdempotent(s: string)
    ensures Slug(Slug(s)) == Slug(s)
  {
    var t := Slug(s);
    forall i | 0 <= i < |t| ensures Slug(t)[i] == t[i] {
      assert !('A' <= t[i] <= 'Z');
    }
  }
}
