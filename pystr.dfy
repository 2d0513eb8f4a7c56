/** The three Python string operations that `allowed_file` is built from:
    `str.lower()`, membership of a character, and `str.rsplit(sep, 1)`.
    Strings are sequences of characters; lowering is modelled over ASCII. */
module PyStr {
  import opened Wrappers

  /** One character of `str.lower()`: 'A'..'Z' become 'a'..'z', every other
      character is left as it is (the ASCII part of Python's case mapping). */
  function LowerChar(c: char): char {
    if 'A' <= c <= 'Z' then (c as int + 32) as char else c
  }

  /** `s.lower()`, character by character. */
  function Lower(s: string): (r: string)
    ensures |r| == |s|
    ensures forall i :: 0 <= i < |s| ==> r[i] == LowerChar(s[i])
  {
    if s == [] then [] else [LowerChar(s[0])] + Lower(s[1..])
  }

  /** Lowering a lowered string changes nothing. */
  lemma LowerIdempotent(s: string)
    ensures Lower(Lower(s)) == Lower(s)
  {
  }

  /** Lowering works piece by piece, so it can be pushed through a split. */
  lemma LowerAppend(a: string, b: string)
    ensures Lower(a + b) == Lower(a) + Lower(b)
  {
  }

  /** Lowering never creates nor removes a given non-letter character such as
      the dot: the dots of `Lower(s)` stand exactly where those of `s` do. */
  lemma LowerKeepsNonLetter(s: string, c: char)
    requires !('A' <= c <= 'Z') && !('a' <= c <= 'z')
    ensures forall i :: 0 <= i < |s| ==> (Lower(s)[i] == c <==> s[i] == c)
    ensures c in Lower(s) <==> c in s
  {
    if c in s {
      var i :| 0 <= i < |s| && s[i] == c;
      assert Lower(s)[i] == c;
    }
    if c in Lower(s) {
      var i :| 0 <= i < |s| && Lower(s)[i] == c;
      assert s[i] == c;
    }
  }

  /** The index of the last occurrence of `c` in `s`, if there is one. */
  function LastIndexOf(s: string, c: char): (r: Option<nat>)
    ensures r.None? <==> c !in s
    ensures r.Some? ==> r.value < |s| && s[r.value] == c && c !in s[r.value + 1..]
  {
    if s == [] then None
    else if s[|s| - 1] == c then Some(|s| - 1)
    else
      var r := LastIndexOf(s[..|s| - 1], c);
      assert r.Some? ==> s[r.value + 1..] == s[..|s| - 1][r.value + 1..] + [s[|s| - 1]];
      assert c !in s[..|s| - 1] ==> c !in s by {
        assert s == s[..|s| - 1] + [s[|s| - 1]];
      }
      r
  }

  /** `s.rsplit(sep, 1)` for a one-character separator: the whole string when
      `sep` does not occur, otherwise the text before and the text after the
      LAST occurrence of `sep`. */
  function RSplitOnce(s: string, sep: char): (parts: seq<string>)
    ensures sep !in s ==> parts == [s]
    ensures sep in s ==> |parts| == 2 && parts[0] + [sep] + parts[1] == s && sep !in parts[1]
  {
    match LastIndexOf(s, sep)
    case None => [s]
    case Some(k) =>
      assert s == s[..k] + [sep] + s[k + 1..];
      [s[..k], s[k + 1..]]
  }

  /** Of two cuts of one string at a separator, the longer tail contains the
      separator at which the shorter tail begins. */
  lemma SeparatorInLongerTail(h1: string, t1: string, h2: string, t2: string, sep: char)
    requires h1 + [sep] + t1 == h2 + [sep] + t2
    requires |t1| < |t2|
    ensures sep in t2
  {
    var s := h1 + [sep] + t1;
    assert t2[|t2| - 1 - |t1|] == s[|s| - 1 - |t1|] == sep;
  }

  /** A string has only one way of being cut at a separator that does not
      occur in the tail. */
  lemma {:induction false} SplitAtLastUnique(h1: string, t1: string, h2: string, t2: string, sep: char)
    requires h1 + [sep] + t1 == h2 + [sep] + t2
    requires sep !in t1 && sep !in t2
    ensures h1 == h2 && t1 == t2
  {
    var s := h1 + [sep] + t1;
    if |t1| < |t2| {
      SeparatorInLongerTail(h1, t1, h2, t2, sep);
      assert false;
    } else if |t2| < |t1| {
      SeparatorInLongerTail(h2, t2, h1, t1, sep);
      assert false;
    }
    assert h1 == s[..|h1|];
    assert h2 == s[..|h2|];
    assert t1 == s[|h1| + 1..];
    assert t2 == s[|h2| + 1..];
  }

  /** Splitting undoes joining: `(head + sep + tail).rsplit(sep, 1)` is
      `[head, tail]` whenever `tail` holds no separator, dots in `head` or not. */
  lemma {:induction false} RSplitOnceOfJoin(head: string, tail: string, sep: char)
    requires sep !in tail
    ensures RSplitOnce(head + [sep] + tail, sep) == [head, tail]
  {
    var s := head + [sep] + tail;
    assert s[|head|] == sep;
    var parts := RSplitOnce(s, sep);
    SplitAtLastUnique(parts[0], parts[1], head, tail, sep);
  }
}
