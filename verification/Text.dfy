/** String splitting, joining and searching, as the wire formats use them. */
module Text {
  /** The parts between separators; a string without separators is its own single part. */
  function Split(s: string, sep: char): (parts: seq<string>)
    ensures parts != []
  {
    if s == [] then [""]
    else
      var rest := Split(s[1..], sep);
      if s[0] == sep then [""] + rest else [[s[0]] + rest[0]] + rest[1..]
  }

  function Join(parts: seq<string>, sep: char): string {
    if parts == [] then ""
    else if |parts| == 1 then parts[0]
    else parts[0] + [sep] + Join(parts[1..], sep)
  }

  /** The first position of `c`, or -1. */
  function IndexOf(s: string, c: char): (i: int)
    ensures -1 <= i < |s|
    ensures i >= 0 ==> s[i] == c && c !in s[..i]
    ensures i < 0 <==> c !in s
  {
    if s == [] then -1
    else if s[0] == c then 0
    else
      var i := IndexOf(s[1..], c);
      if i < 0 then -1 else
        assert s[..i + 1] == [s[0]] + s[1..][..i];
        i + 1
  }

  lemma IndexOfFirst(s: string, c: char, k: nat)
    requires k < |s| && s[k] == c && c !in s[..k]
    ensures IndexOf(s, c) == k
  {
    var i := IndexOf(s, c);
    assert forall j :: 0 <= j < k ==> s[j] == s[..k][j];
    assert i >= 0 ==> forall j :: 0 <= j < i ==> s[j] == s[..i][j];
  }

  predicate StartsWith(s: string, prefix: string) {
    prefix <= s
  }

  ghost predicate Free(parts: seq<string>, sep: char) {
    forall p :: p in parts ==> sep !in p
  }

  lemma {:induction false} SplitIsFree(s: string, sep: char)
    ensures Free(Split(s, sep), sep)
    decreases |s|
  {
    if s != [] {
      SplitIsFree(s[1..], sep);
      var rest := Split(s[1..], sep);
      assert rest[0] in rest;
    }
  }

  lemma JoinCons(p: string, parts: seq<string>, sep: char)
    requires parts != []
    ensures Join([p] + parts, sep) == p + [sep] + Join(parts, sep)
  {
    assert ([p] + parts)[1..] == parts;
  }

  lemma {:induction false} JoinOfSplit(s: string, sep: char)
    ensures Join(Split(s, sep), sep) == s
    decreases |s|
  {
    if s != [] {
      JoinOfSplit(s[1..], sep);
      var rest := Split(s[1..], sep);
      if s[0] == sep {
        JoinCons("", rest, sep);
      } else if |rest| > 1 {
        JoinCons([s[0]] + rest[0], rest[1..], sep);
        JoinCons(rest[0], rest[1..], sep);
        assert rest == [rest[0]] + rest[1..];
      }
    }
  }

  /** Text before the first separator becomes part of the first part. */
  lemma {:induction false} SplitPrefix(p: string, s: string, sep: char)
    requires sep !in p
    ensures Split(p + s, sep) == [p + Split(s, sep)[0]] + Split(s, sep)[1..]
    decreases |p|
  {
    if p == [] {
      var parts := Split(s, sep);
      assert p + s == s && p + parts[0] == parts[0] && [parts[0]] + parts[1..] == parts;
    } else {
      assert (p + s)[1..] == p[1..] + s;
      SplitPrefix(p[1..], s, sep);
      var parts := Split(s, sep);
      assert ([p[1..] + parts[0]] + parts[1..])[1..] == parts[1..];
      assert [p[0]] + (p[1..] + parts[0]) == p + parts[0];
    }
  }

  lemma SplitOne(p: string, sep: char)
    requires sep !in p
    ensures Split(p, sep) == [p]
  {
    SplitPrefix(p, "", sep);
    assert p + "" == p;
  }

  lemma SplitCons(p: string, s: string, sep: char)
    requires sep !in p
    ensures Split(p + [sep] + s, sep) == [p] + Split(s, sep)
  {
    assert p + [sep] + s == p + ([sep] + s);
    SplitPrefix(p, [sep] + s, sep);
    assert ([sep] + s)[1..] == s;
    assert Split([sep] + s, sep) == [""] + Split(s, sep);
    assert ([""] + Split(s, sep))[1..] == Split(s, sep) && p + "" == p;
  }

  lemma {:induction false} SplitOfJoin(parts: seq<string>, sep: char)
    requires parts != [] && Free(parts, sep)
    ensures Split(Join(parts, sep), sep) == parts
    decreases |parts|
  {
    if |parts| == 1 {
      SplitOne(parts[0], sep);
    } else {
      SplitOfJoin(parts[1..], sep);
      SplitCons(parts[0], Join(parts[1..], sep), sep);
    }
  }

  /** There is one more part than there are separators. */
  lemma {:induction false} PartsCountSeparators(s: string, sep: char)
    ensures |Split(s, sep)| == 1 + multiset(s)[sep]
    decreases |s|
  {
    if s != [] {
      PartsCountSeparators(s[1..], sep);
      assert s == [s[0]] + s[1..];
    }
  }
}
