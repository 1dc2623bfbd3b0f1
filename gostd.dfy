/**
 * Models of the Go standard-library functions the wallpaper core calls:
 * strings.HasPrefix, strings.HasSuffix, strings.Index, strings.Replace with
 * n = 1, strings.Split, strings.Join and filepath.Ext (with '/' as the path
 * separator), and Go's len on a string. A Go string is modelled as a
 * sequence of characters; ByteLen gives its length in bytes.
 */
module GoStd {

  /** The number of bytes of c in UTF-8, the encoding of a Go string. */
  function RuneLen(c: char): nat {
    if c as int < 0x80 then 1
    else if c as int < 0x800 then 2
    else if c as int < 0x1_0000 then 3
    else 4
  }

  /**
   * len of a Go string: the number of bytes of its UTF-8 encoding. It equals
   * the number of characters exactly when every character is ASCII.
   */
  function ByteLen(s: string): (n: nat)
    ensures |s| <= n <= 4 * |s|
    ensures n == |s| <==> forall i :: 0 <= i < |s| ==> s[i] as int < 0x80
  {
    if s == [] then 0
    else
      assert forall i :: 1 <= i < |s| ==> s[i] == s[1..][i - 1];
      RuneLen(s[0]) + ByteLen(s[1..])
  }

  /** A Go string has length one exactly when it is a single ASCII character. */
  lemma ByteLenOne(s: string)
    ensures ByteLen(s) == 1 <==> |s| == 1 && s[0] as int < 0x80
  {
  }

  /** strings.HasPrefix */
  predicate HasPrefix(s: string, prefix: string) {
    |prefix| <= |s| && s[..|prefix|] == prefix
  }

  /** s has the prefix exactly when it begins with the prefix's characters, in order. */
  lemma HasPrefixIff(s: string, prefix: string)
    ensures HasPrefix(s, prefix) <==> |prefix| <= |s| && forall i :: 0 <= i < |prefix| ==> s[i] == prefix[i]
  {
  }

  /** strings.HasSuffix */
  predicate HasSuffix(s: string, suffix: string) {
    |suffix| <= |s| && s[|s| - |suffix|..] == suffix
  }

  /** s has the suffix exactly when it ends with the suffix's characters, in order. */
  lemma HasSuffixIff(s: string, suffix: string)
    ensures HasSuffix(s, suffix) <==>
            |suffix| <= |s| && forall i :: 0 <= i < |suffix| ==> s[|s| - |suffix| + i] == suffix[i]
  {
  }

  /**
   * strings.HasSuffix compared character by character from the end. Being
   * recursive, it is unfolded only as far as a proof needs, which keeps
   * the proofs about code that tests fixed suffixes small.
   */
  predicate EndsWith(s: string, suffix: string)
    decreases |suffix|
  {
    if suffix == [] then true
    else |s| > 0 && s[|s| - 1] == suffix[|suffix| - 1] && EndsWith(s[..|s| - 1], suffix[..|suffix| - 1])
  }

  /** A string ends with what was appended to it. */
  lemma EndsWithAppended(s: string, suffix: string)
    ensures EndsWith(s + suffix, suffix)
  {
    EndsWithIsHasSuffix(s + suffix, suffix);
    assert (s + suffix)[|s|..] == suffix;
  }

  /** Both definitions of strings.HasSuffix agree. */
  lemma {:induction false} EndsWithIsHasSuffix(s: string, suffix: string)
    ensures EndsWith(s, suffix) <==> HasSuffix(s, suffix)
    decreases |suffix|
  {
    if suffix != [] && |s| > 0 {
      var s', suffix' := s[..|s| - 1], suffix[..|suffix| - 1];
      EndsWithIsHasSuffix(s', suffix');
      if |suffix| <= |s| {
        assert s[|s| - |suffix|..] == s'[|s'| - |suffix'|..] + [s[|s| - 1]];
        assert suffix == suffix' + [suffix[|suffix| - 1]];
      }
    }
  }

  /** The position of the first occurrence of x in s. */
  function FirstIndex<T(==)>(s: seq<T>, x: T): (i: nat)
    requires x in s
    ensures i < |s| && s[i] == x && x !in s[..i]
  {
    if s[0] == x then 0
    else
      var i := FirstIndex(s[1..], x);
      assert s[..i + 1] == [s[0]] + s[1..][..i];
      i + 1
  }

  /** The first occurrence is the only position holding x with no x before it. */
  lemma FirstIndexUnique<T>(s: seq<T>, x: T, k: nat)
    requires k < |s| && s[k] == x && x !in s[..k]
    ensures FirstIndex(s, x) == k
  {
  }

  /** strings.Index: the first position at which sub occurs in s, or -1 when it does not occur. */
  function Index(s: string, sub: string): (i: int)
    ensures -1 <= i <= |s|
    ensures i >= 0 ==> HasPrefix(s[i..], sub) && forall j :: 0 <= j < i ==> !HasPrefix(s[j..], sub)
    ensures i < 0 ==> forall j :: 0 <= j <= |s| ==> !HasPrefix(s[j..], sub)
    decreases |s|
  {
    if HasPrefix(s, sub) then 0
    else if s == [] then -1
    else
      var i := Index(s[1..], sub);
      assert forall j :: 1 <= j <= |s| ==> s[j..] == s[1..][j - 1..];
      if i < 0 then -1 else i + 1
  }

  /** strings.Replace(s, pattern, replacement, 1): the first occurrence of pattern replaced. */
  function ReplaceFirst(s: string, pattern: string, replacement: string): (r: string)
    ensures (forall j :: 0 <= j <= |s| ==> !HasPrefix(s[j..], pattern)) ==> r == s
    ensures HasPrefix(s, pattern) ==> r == replacement + s[|pattern|..]
  {
    var i := Index(s, pattern);
    if i < 0 then s else s[..i] + replacement + s[i + |pattern|..]
  }

  /**
   * strings.Split with a one-character separator: the pieces between the
   * separators. Like Go's, it never returns an empty list: "" splits into [""].
   */
  function Split(s: string, sep: char): (parts: seq<string>)
    ensures |parts| >= 1
    ensures forall p :: p in parts ==> sep !in p
    decreases |s|
  {
    if sep in s then
      var i := FirstIndex(s, sep);
      [s[..i]] + Split(s[i + 1..], sep)
    else [s]
  }

  /** strings.Join with a one-character separator. */
  function Join(parts: seq<string>, sep: char): string {
    if |parts| == 0 then ""
    else if |parts| == 1 then parts[0]
    else parts[0] + [sep] + Join(parts[1..], sep)
  }

  /** Joining a piece in front of at least one other puts a separator between them. */
  lemma JoinCons(part: string, parts: seq<string>, sep: char)
    requires |parts| >= 1
    ensures Join([part] + parts, sep) == part + [sep] + Join(parts, sep)
  {
    assert ([part] + parts)[1..] == parts;
  }

  /** Joining the pieces again gives back the split string. */
  lemma {:induction false} JoinSplit(s: string, sep: char)
    ensures Join(Split(s, sep), sep) == s
    decreases |s|
  {
    if sep in s {
      var i := FirstIndex(s, sep);
      var rest := Split(s[i + 1..], sep);
      assert Split(s, sep) == [s[..i]] + rest;
      JoinSplit(s[i + 1..], sep);
      JoinCons(s[..i], rest, sep);
      assert s == s[..i] + [sep] + s[i + 1..];
    }
  }

  /** Splitting a join of separator-free pieces gives back the pieces. */
  lemma {:induction false} SplitJoin(parts: seq<string>, sep: char)
    requires |parts| >= 1
    requires forall p :: p in parts ==> sep !in p
    ensures Split(Join(parts, sep), sep) == parts
    decreases |parts|
  {
    if |parts| > 1 {
      var s := Join(parts, sep);
      var rest := Join(parts[1..], sep);
      var k := |parts[0]|;
      assert parts == [parts[0]] + parts[1..];
      JoinCons(parts[0], parts[1..], sep);
      assert s[k] == sep && s[..k] == parts[0] && s[k + 1..] == rest;
      FirstIndexUnique(s, sep, k);
      SplitJoin(parts[1..], sep);
    }
  }

  /** Every '.' in path is followed, somewhere later, by a '/'. */
  predicate NoDotAfterLastSlash(path: string) {
    forall i :: 0 <= i < |path| && path[i] == '.' ==> '/' in path[i + 1..]
  }

  /**
   * filepath.Ext: the suffix starting at the last '.' that comes after the
   * last '/', or "" when there is no such '.'.
   */
  function Ext(path: string): (ext: string)
    ensures HasSuffix(path, ext)
    ensures ext != "" ==> ext[0] == '.' && '.' !in ext[1..] && '/' !in ext
    decreases |path|
  {
    if path == [] then ""
    else
      var init, c := path[..|path| - 1], path[|path| - 1];
      if c == '/' then ""
      else if c == '.' then "."
      else
        var e := Ext(init);
        if e == "" then ""
        else
          assert path[|path| - |e| - 1..] == init[|init| - |e|..] + [c];
          e + [c]
  }

  /** A last character that is neither '.' nor '/' changes nothing about the dots before it. */
  lemma NoDotAfterLastSlashSnoc(init: string, c: char)
    requires c != '/' && c != '.'
    ensures NoDotAfterLastSlash(init + [c]) <==> NoDotAfterLastSlash(init)
  {
    var path := init + [c];
    forall i | 0 <= i < |init|
      ensures path[i] == init[i] && ('/' in path[i + 1..] <==> '/' in init[i + 1..])
    {
      assert path[i + 1..] == init[i + 1..] + [c];
    }
  }

  /** filepath.Ext is empty exactly when no '.' follows the last '/'. */
  lemma {:induction false} ExtEmptyIff(path: string)
    ensures Ext(path) == "" <==> NoDotAfterLastSlash(path)
    decreases |path|
  {
    if path != [] {
      var last := |path| - 1;
      var init, c := path[..last], path[last];
      if c == '/' {
        forall i | 0 <= i < last
          ensures path[i] == '.' ==> '/' in path[i + 1..]
        {
          assert path[i + 1..][last - i - 1] == '/';
        }
      } else if c == '.' {
        assert path[last + 1..] == [];
      } else {
        ExtEmptyIff(init);
        assert path == init + [c];
        NoDotAfterLastSlashSnoc(init, c);
      }
    }
  }
}
