/**
 * The string reformatter: drop every space and dash, cut what is left into
 * blocks of three (a remainder of one becomes two blocks of two), join the
 * blocks with single spaces and append a semicolon.
 */
module ReformatString {

  /** The characters the pattern `[ -]` matches and the reformatter deletes. */
  predicate IsSeparator(c: char)
  {
    c == ' ' || c == '-'
  }

  /** The input with every separator deleted, order kept (`replace(/[ -]/g, '')`). */
  function Strip(s: string): string
  {
    if s == [] then []
    else (if IsSeparator(s[0]) then [] else [s[0]]) + Strip(s[1..])
  }

  /**
   * Stripping deletes exactly the separators: no separator is left, and every
   * other character occurs as often as in the input.
   */
  lemma {:induction false} StripSpec(s: string)
    ensures forall k :: 0 <= k < |Strip(s)| ==> !IsSeparator(Strip(s)[k])
    ensures forall c :: !IsSeparator(c) ==> multiset(Strip(s))[c] == multiset(s)[c]
    decreases |s|
  {
    if s != [] {
      StripSpec(s[1..]);
      assert s == [s[0]] + s[1..];
    }
  }

  /** `String.prototype.slice(start, end)` for a non-negative start: both ends are clamped to the length. */
  function Slice(s: string, start: nat, end: int): (r: string)
    ensures start <= end <= |s| ==> r == s[start..end]
    ensures start <= |s| < end ==> r == s[start..]
    ensures |s| < start ==> r == []
  {
    var a := if start < |s| then start else |s|;
    var b := if end < a then a else if end < |s| then end else |s|;
    s[a..b]
  }

  /**
   * Reference grouping: blocks of three from the front, except that a tail of
   * four characters becomes two blocks of two, and a tail of one, two or three
   * characters is one block.
   */
  function Groups(str: string): seq<string>
    decreases |str|
  {
    if |str| == 0 then []
    else if |str| <= 3 then [str]
    else if |str| == 4 then [str[..2], str[2..]]
    else [str[..3]] + Groups(str[3..])
  }

  /** `Array.prototype.join(' ')`. */
  function Join(bs: seq<string>): string
  {
    if |bs| == 0 then []
    else if |bs| == 1 then bs[0]
    else bs[0] + " " + Join(bs[1..])
  }

  /** The blocks glued together without separators. */
  function Concat(bs: seq<string>): string
  {
    if |bs| == 0 then [] else bs[0] + Concat(bs[1..])
  }

  /** The text with every space deleted. */
  function RemoveSpaces(t: string): string
  {
    if t == [] then []
    else (if t[0] == ' ' then [] else [t[0]]) + RemoveSpaces(t[1..])
  }

  /** Position of the first space of `t`. */
  function FirstSpace(t: string): (k: nat)
    requires ' ' in t
    ensures k < |t| && t[k] == ' ' && ' ' !in t[..k]
  {
    if t[0] == ' ' then 0
    else
      assert ' ' in t[1..] by { assert t == [t[0]] + t[1..]; }
      var k := 1 + FirstSpace(t[1..]);
      assert t[..k] == [t[0]] + t[1..][..k - 1];
      k
  }

  /** `String.prototype.split(' ')`. */
  function Split(t: string): (parts: seq<string>)
    ensures |parts| >= 1
    decreases |t|
  {
    if ' ' !in t then [t]
    else
      var k := FirstSpace(t);
      [t[..k]] + Split(t[k + 1..])
  }

  /** The whole reformatter as one expression over the reference grouping. */
  function Reformat(s: string): string
  {
    Join(Groups(Strip(s))) + ";"
  }

  // ---------------------------------------------------------------------------
  // The TypeScript `reformatString` loop, step by step
  // ---------------------------------------------------------------------------

  /** Reference grouping of what is left from index `i` on; nothing once `i` is past the end. */
  function Rest(str: string, i: nat): seq<string>
  {
    if i <= |str| then Groups(str[i..]) else []
  }

  /** One pass of the three-character loop takes exactly the next reference block. */
  lemma LoopStep(str: string, i: nat, limit: int)
    requires limit == if |str| % 3 == 1 then |str| - 4 else |str|
    requires i % 3 == 0 && i < limit
    ensures Rest(str, i) == [Slice(str, i, i + 3)] + Rest(str, i + 3)
  {
    var t := str[i..];
    assert |t| % 3 == (|str| - i) % 3;
    if |t| <= 3 {
      assert t == Slice(str, i, i + 3);
    } else {
      assert |t| != 4;
      assert t[..3] == str[i..i + 3];
      assert t[3..] == str[i + 3..];
    }
  }

  /** What the code after the loop pushes is the reference grouping of the tail. */
  lemma TailStep(str: string, i: nat, limit: int)
    requires limit == if |str| % 3 == 1 then |str| - 4 else |str|
    requires i % 3 == 0 && limit <= i && (i == 0 || i < limit + 3)
    ensures i < |str| && |str| - i == 4 ==>
              Rest(str, i) == [Slice(str, i, i + 2), Slice(str, i + 2, i + 4)]
    ensures i < |str| && |str| - i != 4 ==> Rest(str, i) == [Slice(str, i, |str|)]
    ensures |str| <= i ==> Rest(str, i) == []
  {
    var n := |str|;
    if i < n {
      if n % 3 == 1 && n >= 4 {
        assert i == n - 4;
        var t := str[i..];
        assert t[..2] == str[i..i + 2];
        assert t[2..] == str[i + 2..i + 4];
      } else {
        assert n == 1 && i == 0;
        assert str[i..] == str == str[0..1];
      }
    } else if i == n {
      assert str[i..] == [];
    }
  }

  /**
   * The reformatter as written: the cursor walks in steps of three up to
   * `limit`, leaving four characters for the two-and-two split when the kept
   * length leaves remainder one, and the leftover is pushed as the tail.
   */
  method ReformatStringLoop(s: string) returns (r: string)
    ensures r == Reformat(s)
  {
    var str := Strip(s);
    var out: seq<string> := [];
    var n := |str|;
    var i: nat := 0;
    var limit := if n % 3 == 1 then n - 4 else n;
    while i < limit
      invariant i % 3 == 0
      invariant i == 0 || i < limit + 3
      invariant out + Rest(str, i) == Groups(str)
    {
      LoopStep(str, i, limit);
      out := out + [Slice(str, i, i + 3)];
      i := i + 3;
    }
    TailStep(str, i, limit);
    if i < n {
      var rem := n - i;
      if rem == 4 {
        out := out + [Slice(str, i, i + 2), Slice(str, i + 2, i + 4)];
      } else {
        out := out + [Slice(str, i, n)];
      }
    } else {
      assert out + [] == out;
    }
    assert out == Groups(str);
    r := Join(out) + ";";
  }

  // ---------------------------------------------------------------------------
  // Properties of the reference grouping
  // ---------------------------------------------------------------------------

  /** Gluing the blocks back together gives the kept characters, in order. */
  lemma {:induction false} ConcatGroups(str: string)
    ensures Concat(Groups(str)) == str
    decreases |str|
  {
    if |str| == 4 {
      assert Concat([str[2..]]) == str[2..] + Concat([]);
      assert Concat(Groups(str)) == str[..2] + Concat([str[2..]]);
    } else if |str| > 4 {
      ConcatGroups(str[3..]);
      assert Concat(Groups(str)) == str[..3] + Concat(Groups(str[3..]));
    }
  }

  /** The length the reference grouping gives block `k` of `n` kept characters. */
  function BlockSize(n: nat, k: nat): nat
  {
    if n % 3 == 0 then 3
    else if n % 3 == 2 then (if k == (n + 2) / 3 - 1 then 2 else 3)
    else if n == 1 then 1
    else (if k >= (n + 2) / 3 - 2 then 2 else 3)
  }

  lemma {:induction false} GroupSizesByIndex(str: string)
    ensures |Groups(str)| == (|str| + 2) / 3
    ensures forall k :: 0 <= k < |Groups(str)| ==> |Groups(str)[k]| == BlockSize(|str|, k)
    decreases |str|
  {
    if |str| > 4 {
      var tail := str[3..];
      GroupSizesByIndex(tail);
      var bs := Groups(str);
      assert bs == [str[..3]] + Groups(tail);
      forall k | 0 <= k < |bs| ensures |bs[k]| == BlockSize(|str|, k) {
        if k > 0 {
          assert bs[k] == Groups(tail)[k - 1];
          assert BlockSize(|str|, k) == BlockSize(|tail|, k - 1);
        }
      }
    }
  }

  /**
   * The number of kept characters decides every block length: remainder 0
   * gives only threes, remainder 2 ends in one two, remainder 1 (from four on)
   * ends in two twos; a single character is one block of one.
   */
  lemma GroupSizes(str: string)
    ensures |Groups(str)| == (|str| + 2) / 3
    ensures |str| % 3 == 0 ==>
              forall k :: 0 <= k < |Groups(str)| ==> |Groups(str)[k]| == 3
    ensures |str| % 3 == 2 ==>
              forall k :: 0 <= k < |Groups(str)| ==>
                |Groups(str)[k]| == if k == |Groups(str)| - 1 then 2 else 3
    ensures |str| % 3 == 1 && |str| >= 4 ==>
              forall k :: 0 <= k < |Groups(str)| ==>
                |Groups(str)[k]| == if k >= |Groups(str)| - 2 then 2 else 3
    ensures |str| == 1 ==> Groups(str) == [str]
  {
    GroupSizesByIndex(str);
  }

  /** The blocks are non-empty pieces of the kept characters. */
  lemma {:induction false} GroupsAreNonEmptyPieces(str: string)
    ensures forall k :: 0 <= k < |Groups(str)| ==>
              |Groups(str)[k]| > 0 &&
              forall j :: 0 <= j < |Groups(str)[k]| ==> Groups(str)[k][j] in str
    decreases |str|
  {
    if |str| > 4 {
      var tail := str[3..];
      GroupsAreNonEmptyPieces(tail);
      var bs := Groups(str);
      forall k | 1 <= k < |bs|
        ensures forall j :: 0 <= j < |bs[k]| ==> bs[k][j] in str
      {
        assert bs[k] == Groups(tail)[k - 1];
        forall j | 0 <= j < |bs[k]| ensures bs[k][j] in str {
          assert bs[k][j] in tail;
          var m :| 0 <= m < |tail| && tail[m] == bs[k][j];
          assert str[m + 3] == bs[k][j];
        }
      }
    }
  }

  lemma {:induction false} RemoveSpacesAppend(a: string, b: string)
    ensures RemoveSpaces(a + b) == RemoveSpaces(a) + RemoveSpaces(b)
    decreases |a|
  {
    if a != [] {
      RemoveSpacesAppend(a[1..], b);
      assert (a + b)[0] == a[0];
      assert (a + b)[1..] == a[1..] + b;
    } else {
      assert a + b == b;
    }
  }

  lemma {:induction false} RemoveSpacesNoSpace(a: string)
    requires ' ' !in a
    ensures RemoveSpaces(a) == a
    decreases |a|
  {
    if a != [] {
      RemoveSpacesNoSpace(a[1..]);
      assert a == [a[0]] + a[1..];
    }
  }

  /** Deleting the joining spaces of space-free blocks gives the blocks glued together. */
  lemma {:induction false} RemoveSpacesJoin(bs: seq<string>)
    requires forall k :: 0 <= k < |bs| ==> ' ' !in bs[k]
    ensures RemoveSpaces(Join(bs)) == Concat(bs)
    decreases |bs|
  {
    if |bs| == 1 {
      RemoveSpacesNoSpace(bs[0]);
      assert Concat(bs) == bs[0] + Concat([]);
    } else if |bs| > 1 {
      RemoveSpacesJoin(bs[1..]);
      RemoveSpacesNoSpace(bs[0]);
      RemoveSpacesAppend(bs[0] + " ", Join(bs[1..]));
      RemoveSpacesAppend(bs[0], " ");
      assert RemoveSpaces(" ") == [];
    }
  }

  /** Every character of a join is a space or a character of some block. */
  lemma {:induction false} JoinChars(bs: seq<string>, c: char)
    requires c in Join(bs)
    ensures c == ' ' || c in Concat(bs)
    decreases |bs|
  {
    if |bs| > 1 {
      if c !in bs[0] && c != ' ' {
        JoinChars(bs[1..], c);
      }
    }
  }

  /** A space-free block followed by a space is split off as the first part. */
  lemma SplitFirst(a: string, r: string)
    requires ' ' !in a
    ensures Split(a + " " + r) == [a] + Split(r)
  {
    var t := a + " " + r;
    assert t[|a|] == ' ';
    var k := FirstSpace(t);
    assert k == |a|;
    assert t[..k] == a;
    assert t[k + 1..] == r;
  }

  /** Splitting a join of non-empty, space-free blocks at its spaces gives the blocks back. */
  lemma {:induction false} SplitJoin(bs: seq<string>)
    requires |bs| > 0
    requires forall k :: 0 <= k < |bs| ==> ' ' !in bs[k]
    ensures Split(Join(bs)) == bs
    decreases |bs|
  {
    if |bs| > 1 {
      SplitFirst(bs[0], Join(bs[1..]));
      SplitJoin(bs[1..]);
      assert bs == [bs[0]] + bs[1..];
    } else {
      assert Join(bs) == bs[0];
    }
  }

  // ---------------------------------------------------------------------------
  // Properties of the reformatter
  // ---------------------------------------------------------------------------

  /** The output ends in `;`, and when the input has no `;` that is its only `;`. */
  lemma ReformatEndsWithSemicolon(s: string)
    ensures |Reformat(s)| > 0 && Reformat(s)[|Reformat(s)| - 1] == ';'
    ensures ';' !in s ==> ';' !in Reformat(s)[..|Reformat(s)| - 1]
  {
    var str := Strip(s);
    var body := Join(Groups(str));
    assert Reformat(s)[..|Reformat(s)| - 1] == body;
    if ';' !in s && ';' in body {
      JoinChars(Groups(str), ';');
      ConcatGroups(str);
      StripSpec(s);
      assert false;
    }
  }

  /**
   * Deleting the joining spaces and the final `;` from the output gives the
   * input with every space and dash removed, in the original order.
   */
  lemma ReformatRoundTrip(s: string)
    ensures |Reformat(s)| > 0
    ensures RemoveSpaces(Reformat(s)[..|Reformat(s)| - 1]) == Strip(s)
  {
    var str := Strip(s);
    var bs := Groups(str);
    assert Reformat(s)[..|Reformat(s)| - 1] == Join(bs);
    GroupsAreNonEmptyPieces(str);
    StripSpec(s);
    assert forall k :: 0 <= k < |bs| ==> ' ' !in bs[k];
    RemoveSpacesJoin(bs);
    ConcatGroups(str);
  }

  /**
   * When anything is kept, the output before `;` splits at its spaces into
   * exactly the reference blocks, each non-empty and free of spaces and dashes;
   * so blocks are separated by exactly one space.
   */
  lemma ReformatBlocks(s: string)
    requires |Strip(s)| > 0
    ensures |Reformat(s)| > 0
    ensures Split(Reformat(s)[..|Reformat(s)| - 1]) == Groups(Strip(s))
    ensures forall k :: 0 <= k < |Groups(Strip(s))| ==>
              |Groups(Strip(s))[k]| > 0 &&
              forall j :: 0 <= j < |Groups(Strip(s))[k]| ==> !IsSeparator(Groups(Strip(s))[k][j])
  {
    var str := Strip(s);
    var bs := Groups(str);
    assert Reformat(s)[..|Reformat(s)| - 1] == Join(bs);
    GroupsAreNonEmptyPieces(str);
    StripSpec(s);
    forall k | 0 <= k < |bs|
      ensures forall j :: 0 <= j < |bs[k]| ==> !IsSeparator(bs[k][j])
    {
      forall j | 0 <= j < |bs[k]| ensures !IsSeparator(bs[k][j]) {
        var m :| 0 <= m < |str| && str[m] == bs[k][j];
      }
    }
    GroupSizes(str);
    assert |bs| > 0;
    SplitJoin(bs);
  }

  /** With at least two kept characters every block has two or three characters. */
  lemma ReformatBlockSizesTwoOrThree(s: string)
    requires |Strip(s)| >= 2
    ensures forall k :: 0 <= k < |Groups(Strip(s))| ==>
              2 <= |Groups(Strip(s))[k]| <= 3
  {
    GroupSizes(Strip(s));
  }

  /** Deleting separators commutes with concatenation. */
  lemma {:induction false} StripAppend(a: string, b: string)
    ensures Strip(a + b) == Strip(a) + Strip(b)
    decreases |a|
  {
    if a == [] {
      assert a + b == b;
    } else {
      var c := if IsSeparator(a[0]) then [] else [a[0]];
      StripAppend(a[1..], b);
      assert (a + b)[0] == a[0];
      assert (a + b)[1..] == a[1..] + b;
      assert Strip(a + b) == c + Strip(a[1..] + b);
      assert Strip(a) == c + Strip(a[1..]);
      assert c + (Strip(a[1..]) + Strip(b)) == (c + Strip(a[1..])) + Strip(b);
    }
  }

  /** A piece with no separator survives stripping in front of anything. */
  lemma {:induction false} StripKeepFront(a: string, r: string)
    requires forall k :: 0 <= k < |a| ==> !IsSeparator(a[k])
    ensures Strip(a + r) == a + Strip(r)
    decreases |a|
  {
    if a != [] {
      StripKeepFront(a[1..], r);
      assert (a + r)[1..] == a[1..] + r;
      assert [a[0]] + a[1..] == a;
    } else {
      assert a + r == r;
    }
  }

  /** A piece of separators only vanishes in front of anything. */
  lemma {:induction false} StripDropFront(x: string, r: string)
    requires forall k :: 0 <= k < |x| ==> IsSeparator(x[k])
    ensures Strip(x + r) == Strip(r)
    decreases |x|
  {
    if x != [] {
      StripDropFront(x[1..], r);
      assert (x + r)[1..] == x[1..] + r;
    } else {
      assert x + r == r;
    }
  }

  /** A string longer than four starts with a block of its first three characters. */
  lemma GroupsFirstBlock(a: string, b: string)
    requires |a| == 3 && |b| >= 2
    ensures Groups(a + b) == [a] + Groups(b)
  {
    assert (a + b)[..3] == a;
    assert (a + b)[3..] == b;
  }
}
