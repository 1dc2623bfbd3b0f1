/**
 * The string and slice helpers of the wallutils package (utils.go): has,
 * unique, abs, firstname, CommonPrefix, CommonSuffix, Meat and expandUser.
 * The loops of the source are methods with invariants; the one-expression
 * helpers are functions.
 */
module Utils {
  import opened GoStd

  // ---------------------------------------------------------------- has / unique

  /** has: whether e occurs in sl. */
  method Has(sl: seq<string>, e: string) returns (found: bool)
    ensures found <==> e in sl
  {
    for i := 0 to |sl|
      invariant e !in sl[..i]
    {
      if sl[i] == e {
        return true;
      }
    }
    assert sl[..|sl|] == sl;
    return false;
  }

  predicate NoDuplicates(s: seq<string>) {
    forall i, j :: 0 <= i < j < |s| ==> s[i] != s[j]
  }

  /**
   * What unique computes: the list grown one element at a time, an element
   * being appended only when it is not already in the list.
   */
  function Dedup(sl: seq<string>): (r: seq<string>)
    ensures forall x :: x in r <==> x in sl
    ensures NoDuplicates(r)
  {
    if sl == [] then []
    else
      var kept, last := Dedup(sl[..|sl| - 1]), sl[|sl| - 1];
      assert sl == sl[..|sl| - 1] + [last];
      if last in kept then kept else kept + [last]
  }

  /** unique: the elements of sl without repetitions. */
  method Unique(sl: seq<string>) returns (nl: seq<string>)
    ensures nl == Dedup(sl)
  {
    nl := [];
    for i := 0 to |sl|
      invariant nl == Dedup(sl[..i])
    {
      assert sl[..i + 1][..i] == sl[..i];
      var seen := Has(nl, sl[i]);
      if !seen {
        nl := nl + [sl[i]];
      }
    }
    assert sl[..|sl|] == sl;
  }

  /** unique keeps the elements in the order of their first occurrence in the input. */
  lemma {:induction false} DedupKeepsFirstOccurrenceOrder(sl: seq<string>)
    ensures forall i, j :: 0 <= i < j < |Dedup(sl)| ==>
              FirstIndex(sl, Dedup(sl)[i]) < FirstIndex(sl, Dedup(sl)[j])
  {
    if sl != [] {
      var init, last := sl[..|sl| - 1], sl[|sl| - 1];
      var kept := Dedup(init);
      assert sl == init + [last];
      DedupKeepsFirstOccurrenceOrder(init);
      forall x | x in init
        ensures FirstIndex(sl, x) == FirstIndex(init, x)
      {
        var k := FirstIndex(init, x);
        assert sl[..k] == init[..k];
        FirstIndexUnique(sl, x, k);
      }
      if last !in init {
        assert sl[..|init|] == init;
        FirstIndexUnique(sl, last, |init|);
      }
    }
  }

  /** A list without repetitions is left as it is. */
  lemma {:induction false} DedupOfDistinct(sl: seq<string>)
    requires NoDuplicates(sl)
    ensures Dedup(sl) == sl
  {
    if sl != [] {
      var init, last := sl[..|sl| - 1], sl[|sl| - 1];
      DedupOfDistinct(init);
      assert sl == init + [last];
    }
  }

  /** unique is idempotent. */
  lemma DedupIdempotent(sl: seq<string>)
    ensures Dedup(Dedup(sl)) == Dedup(sl)
  {
    DedupOfDistinct(Dedup(sl));
  }

  // ---------------------------------------------------------------- abs

  /** The least value of Go's 64-bit int. */
  const MinInt: int := -0x8000_0000_0000_0000

  /** Go's int on a 64-bit platform. */
  newtype Int = x: int | -0x8000_0000_0000_0000 <= x < 0x8000_0000_0000_0000

  /** Go's unary minus on int: -x modulo 2^64, so the least value is its own negation. */
  function Negate(x: Int): (r: Int)
    ensures x as int != MinInt ==> r as int == -(x as int)
    ensures x as int == MinInt ==> r == x
  {
    ((-(x as int) - MinInt) % 0x1_0000_0000_0000_0000 + MinInt) as Int
  }

  /** abs: the magnitude of x, except that the least int overflows to itself. */
  function Abs(x: Int): (r: Int)
    ensures x as int != MinInt ==> r >= 0 && (r == x || r as int == -(x as int))
    ensures x as int == MinInt ==> r == x && r < 0
  {
    if x < 0 then Negate(x) else x
  }

  // ---------------------------------------------------------------- firstname

  /** firstname: the filename without its extension (as filepath.Ext finds it). */
  function Firstname(filename: string): (name: string)
    ensures name + Ext(filename) == filename
    ensures HasPrefix(filename, name)
    ensures NoDotAfterLastSlash(filename) ==> name == filename
  {
    ExtEmptyIff(filename);
    filename[..|filename| - |Ext(filename)|]
  }

  // ---------------------------------------------------------------- CommonPrefix / CommonSuffix

  predicate IsCommonPrefix(p: string, sl: seq<string>) {
    forall s :: s in sl ==> HasPrefix(s, p)
  }

  predicate IsCommonSuffix(p: string, sl: seq<string>) {
    forall s :: s in sl ==> HasSuffix(s, p)
  }

  /**
   * The index of the first string of least length in sl: the string the
   * scans of CommonPrefix and CommonSuffix settle on, since they replace
   * their candidate only by a strictly shorter one.
   */
  function ShortestIndex(sl: seq<string>): (k: nat)
    requires |sl| > 0
    ensures k < |sl|
    ensures forall j :: 0 <= j < |sl| ==> |sl[k]| <= |sl[j]|
    ensures forall j :: 0 <= j < k ==> |sl[k]| < |sl[j]|
  {
    if |sl| == 1 then 0
    else
      var k := ShortestIndex(sl[..|sl| - 1]);
      if |sl[|sl| - 1]| < |sl[k]| then |sl| - 1 else k
  }

  /** The scan for the shortest string that opens CommonPrefix and CommonSuffix. */
  method FindShortest(sl: seq<string>) returns (shortestLength: nat, shortestString: string)
    requires |sl| > 0
    ensures shortestString == sl[ShortestIndex(sl)] && shortestLength == |shortestString|
  {
    shortestLength, shortestString := |sl[0]|, sl[0];
    ghost var k := 0;
    for i := 0 to |sl|
      invariant k < |sl| && shortestString == sl[k] && shortestLength == |sl[k]|
      invariant i == 0 ==> k == 0
      invariant 0 < i ==> k == ShortestIndex(sl[..i])
    {
      if |sl[i]| < shortestLength {
        shortestLength, shortestString := |sl[i]|, sl[i];
        k := i;
      }
      assert sl[..i + 1][..i] == sl[..i];
    }
    assert sl[..|sl|] == sl;
  }

  /**
   * CommonPrefix as written. Let sh be the first shortest string. The result
   * is a prefix of sh; when it is shorter than sh by two or more, it is the
   * longest common prefix of all strings; otherwise it is sh itself, of which
   * only the prefix one shorter has been checked against the other strings.
   */
  method CommonPrefix(sl: seq<string>) returns (r: string)
    ensures |sl| == 0 ==> r == ""
    ensures "" in sl ==> r == ""
    ensures |sl| == 1 ==> r == sl[0]
    ensures |sl| > 0 ==> HasPrefix(sl[ShortestIndex(sl)], r)
    ensures |sl| > 0 && r != sl[ShortestIndex(sl)] ==>
              |r| + 1 < |sl[ShortestIndex(sl)]| && IsCommonPrefix(r, sl) &&
              !IsCommonPrefix(sl[ShortestIndex(sl)][..|r| + 1], sl)
    ensures |sl| > 0 && r == sl[ShortestIndex(sl)] && r != "" ==> IsCommonPrefix(r[..|r| - 1], sl)
  {
    if |sl| == 0 {
      return "";
    }
    var shortestLength, shortestString := FindShortest(sl);
    if shortestLength == 0 {
      return "";
    }
    for i := 1 to shortestLength
      invariant IsCommonPrefix(shortestString[..i - 1], sl)
    {
      for j := 0 to |sl|
        invariant forall t :: 0 <= t < j ==> HasPrefix(sl[t], shortestString[..i])
      {
        if !HasPrefix(sl[j], shortestString[..i]) {
          return shortestString[..i - 1];
        }
      }
    }
    return shortestString;
  }

  /** The off-by-one of CommonPrefix: for ["ab", "ac"] it returns "ab", not a prefix of "ac". */
  method CommonPrefixOffByOne() returns (r: string)
    ensures r == "ab" && !IsCommonPrefix(r, ["ab", "ac"])
  {
    var sl := ["ab", "ac"];
    assert sl[..1] == ["ab"];
    assert ShortestIndex(sl) == 0;
    r := CommonPrefix(sl);
    forall s | s in sl
      ensures HasPrefix(s, "a")
    {
      assert s == "ab" || s == "ac";
      assert s[..1] == "a";
    }
    assert "ac"[..2][1] != "ab"[1];
    assert sl[1] == "ac" && !HasPrefix(sl[1], r);
  }

  /** CommonPrefix with the full length of the shortest string checked too. */
  method LongestCommonPrefix(sl: seq<string>) returns (r: string)
    ensures |sl| == 0 ==> r == ""
    ensures |sl| > 0 ==> IsCommonPrefix(r, sl)
    ensures |sl| > 0 ==> forall p :: IsCommonPrefix(p, sl) ==> HasPrefix(r, p)
  {
    if |sl| == 0 {
      return "";
    }
    var shortestLength, shortestString := FindShortest(sl);
    if shortestLength == 0 {
      return "";
    }
    for i := 1 to shortestLength + 1
      invariant IsCommonPrefix(shortestString[..i - 1], sl)
    {
      for j := 0 to |sl|
        invariant forall t :: 0 <= t < j ==> HasPrefix(sl[t], shortestString[..i])
      {
        if !HasPrefix(sl[j], shortestString[..i]) {
          r := shortestString[..i - 1];
          forall p | IsCommonPrefix(p, sl)
            ensures HasPrefix(r, p)
          {
            assert HasPrefix(shortestString, p) && HasPrefix(sl[j], p);
          }
          return;
        }
      }
    }
    r := shortestString;
    assert shortestString[..shortestLength] == shortestString;
  }

  /**
   * CommonSuffix as written, the mirror image of CommonPrefix: the result is
   * a suffix of the first shortest string sh; when it is shorter than sh by
   * two or more it is the longest common suffix; otherwise it is sh itself.
   */
  method CommonSuffix(sl: seq<string>) returns (r: string)
    ensures |sl| == 0 ==> r == ""
    ensures "" in sl ==> r == ""
    ensures |sl| == 1 ==> r == sl[0]
    ensures |sl| > 0 ==> HasSuffix(sl[ShortestIndex(sl)], r)
    ensures |sl| > 0 && r != sl[ShortestIndex(sl)] ==>
              |r| + 1 < |sl[ShortestIndex(sl)]| && IsCommonSuffix(r, sl) &&
              !IsCommonSuffix(sl[ShortestIndex(sl)][|sl[ShortestIndex(sl)]| - |r| - 1..], sl)
    ensures |sl| > 0 && r == sl[ShortestIndex(sl)] && r != "" ==> IsCommonSuffix(r[1..], sl)
  {
    if |sl| == 0 {
      return "";
    }
    var shortestLength, shortestString := FindShortest(sl);
    if shortestLength == 0 {
      return "";
    }
    for i := 1 to shortestLength
      invariant IsCommonSuffix(shortestString[shortestLength - (i - 1)..], sl)
    {
      for j := 0 to |sl|
        invariant forall t :: 0 <= t < j ==> HasSuffix(sl[t], shortestString[shortestLength - i..])
      {
        if !HasSuffix(sl[j], shortestString[shortestLength - i..]) {
          return shortestString[shortestLength - (i - 1)..];
        }
      }
    }
    return shortestString;
  }

  /** The off-by-one of CommonSuffix: for ["ab", "cb"] it returns "ab", not a suffix of "cb". */
  method CommonSuffixOffByOne() returns (r: string)
    ensures r == "ab" && !IsCommonSuffix(r, ["ab", "cb"])
  {
    var sl := ["ab", "cb"];
    assert sl[..1] == ["ab"];
    assert ShortestIndex(sl) == 0;
    r := CommonSuffix(sl);
    forall s | s in sl
      ensures HasSuffix(s, "b")
    {
      assert s == "ab" || s == "cb";
      assert s[1..] == "b";
    }
    assert "cb"[0..][0] != "ab"[0];
    assert sl[1] == "cb" && !HasSuffix(sl[1], r);
  }

  /** CommonSuffix with the full length of the shortest string checked too. */
  method LongestCommonSuffix(sl: seq<string>) returns (r: string)
    ensures |sl| == 0 ==> r == ""
    ensures |sl| > 0 ==> IsCommonSuffix(r, sl)
    ensures |sl| > 0 ==> forall p :: IsCommonSuffix(p, sl) ==> HasSuffix(r, p)
  {
    if |sl| == 0 {
      return "";
    }
    var shortestLength, shortestString := FindShortest(sl);
    if shortestLength == 0 {
      return "";
    }
    for i := 1 to shortestLength + 1
      invariant IsCommonSuffix(shortestString[shortestLength - (i - 1)..], sl)
    {
      for j := 0 to |sl|
        invariant forall t :: 0 <= t < j ==> HasSuffix(sl[t], shortestString[shortestLength - i..])
      {
        if !HasSuffix(sl[j], shortestString[shortestLength - i..]) {
          r := shortestString[shortestLength - (i - 1)..];
          forall p | IsCommonSuffix(p, sl)
            ensures HasSuffix(r, p)
          {
            assert HasSuffix(shortestString, p) && HasSuffix(sl[j], p);
          }
          return;
        }
      }
    }
    r := shortestString;
    assert shortestString[0..] == shortestString;
  }

  // ---------------------------------------------------------------- Meat

  /**
   * Meat: s without as many leading characters as prefix has and as many
   * trailing characters as suffix has (their contents are not compared);
   * s itself when it is too short for both.
   */
  function Meat(s: string, prefix: string, suffix: string): (r: string)
    ensures |s| < |prefix| + |suffix| ==> r == s
    ensures |s| >= |prefix| + |suffix| ==>
              |r| == |s| - |prefix| - |suffix| && s == s[..|prefix|] + r + s[|s| - |suffix|..]
  {
    if |s| < |prefix| + |suffix| then s else s[|prefix|..|s| - |suffix|]
  }

  /** Meat takes back what surrounds the middle. */
  lemma MeatOfWrapped(prefix: string, middle: string, suffix: string)
    ensures Meat(prefix + middle + suffix, prefix, suffix) == middle
  {
    var s := prefix + middle + suffix;
    assert s[|prefix|..|s| - |suffix|] == middle;
  }

  // ---------------------------------------------------------------- expandUser

  /**
   * expandUser, with the value of $HOME as a parameter: a leading "~" or,
   * failing that, a leading "$HOME" is replaced by home.
   */
  function ExpandUser(path: string, home: string): (expanded: string)
    ensures HasPrefix(path, "~") ==> expanded == home + path[1..]
    ensures !HasPrefix(path, "~") && HasPrefix(path, "$HOME") ==> expanded == home + path[5..]
    ensures !HasPrefix(path, "~") && !HasPrefix(path, "$HOME") ==> expanded == path
  {
    if HasPrefix(path, "~") then ReplaceFirst(path, "~", home)
    else if HasPrefix(path, "$HOME") then ReplaceFirst(path, "$HOME", home)
    else path
  }
}
