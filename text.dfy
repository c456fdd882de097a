/** The two string and list operations the pick parser relies on: `str.split(sep)` and `lst[-k:]`. */
module Text {

  /** Position of the first `sep` in `s`. */
  function IndexOf(s: string, sep: char): (i: nat)
    requires sep in s
    ensures i < |s| && s[i] == sep && sep !in s[..i]
  {
    if s[0] == sep then 0 else 1 + IndexOf(s[1..], sep)
  }

  /** Python's `s.split(sep)`: the pieces between separators, empty pieces kept. */
  function Split(s: string, sep: char): (parts: seq<string>)
    ensures |parts| >= 1
    ensures forall p <- parts :: sep !in p
    ensures sep !in s ==> parts == [s]
    ensures sep in s ==> |parts| >= 2
    decreases |s|
  {
    if sep !in s then [s]
    else
      var i := IndexOf(s, sep);
      [s[..i]] + Split(s[i + 1..], sep)
  }

  /** `sep.join(parts)`. */
  function Join(parts: seq<string>, sep: char): string
    requires |parts| >= 1
  {
    if |parts| == 1 then parts[0] else parts[0] + [sep] + Join(parts[1..], sep)
  }

  lemma {:induction false} JoinFree(parts: seq<string>, sep: char, c: char)
    requires |parts| >= 1 && c != sep
    requires forall p <- parts :: c !in p
    ensures c !in Join(parts, sep)
  {
    if |parts| > 1 {
      JoinFree(parts[1..], sep, c);
    }
  }

  /** Splitting and re-joining gives back the line. */
  lemma {:induction false} JoinSplit(s: string, sep: char)
    ensures Join(Split(s, sep), sep) == s
    decreases |s|
  {
    if sep in s {
      var i := IndexOf(s, sep);
      JoinSplit(s[i + 1..], sep);
      assert s == s[..i] + [sep] + s[i + 1..];
    }
  }

  /** Joining pieces free of the separator and splitting again gives back the pieces. */
  lemma {:induction false} SplitJoin(parts: seq<string>, sep: char)
    requires |parts| >= 1
    requires forall p <- parts :: sep !in p
    ensures Split(Join(parts, sep), sep) == parts
  {
    if |parts| > 1 {
      var s := Join(parts, sep);
      var head := parts[0];
      assert s == head + [sep] + Join(parts[1..], sep);
      assert s[|head|] == sep;
      assert s[..|head|] == head;
      IndexOfFirst(s, sep, |head|);
      assert s[|head| + 1..] == Join(parts[1..], sep);
      SplitJoin(parts[1..], sep);
    }
  }

  lemma {:induction false} IndexOfFirst(s: string, sep: char, k: nat)
    requires k < |s| && s[k] == sep && sep !in s[..k]
    ensures IndexOf(s, sep) == k
  {
    if k > 0 {
      assert s[..k][0] == s[0];
      assert s[1..][..k - 1] == s[..k][1..];
      IndexOfFirst(s[1..], sep, k - 1);
    }
  }

  /** Python's `lst[-k:]` for `k >= 0`: the last `k` items, the whole list when `k` is 0 or too large. */
  function Tail<T>(s: seq<T>, k: nat): (r: seq<T>)
    ensures |r| <= |s| && r == s[|s| - |r|..]
    ensures 1 <= k <= |s| ==> |r| == k
    ensures k == 0 || k > |s| ==> r == s
  {
    if k == 0 then s else s[if k <= |s| then |s| - k else 0..]
  }

  /** The whitespace up to U+00FF that `str.strip()` removes: tab, line feed, vertical tab, form feed,
      carriage return, the separators U+001C..U+001F, space, U+0085 and U+00A0. */
  predicate IsSpace(c: char) {
    9 <= c as int <= 13 || 28 <= c as int <= 32 || c as int == 133 || c as int == 160
  }

  /** Leading whitespace removed. */
  function StripLeft(s: string): (r: string)
    ensures |r| <= |s| && r == s[|s| - |r|..]
    ensures forall i :: 0 <= i < |s| - |r| ==> IsSpace(s[i])
    ensures r == [] || !IsSpace(r[0])
  {
    if s == [] || !IsSpace(s[0]) then s else StripLeft(s[1..])
  }

  /** Trailing whitespace removed. */
  function StripRight(s: string): (r: string)
    ensures |r| <= |s| && r == s[..|r|]
    ensures forall i :: |r| <= i < |s| ==> IsSpace(s[i])
    ensures r == [] || !IsSpace(r[|r| - 1])
  {
    if s == [] || !IsSpace(s[|s| - 1]) then s else StripRight(s[..|s| - 1])
  }

  /** Python's `s.strip()`: leading and trailing whitespace removed. */
  function Strip(s: string): (r: string)
    ensures r == [] || (!IsSpace(r[0]) && !IsSpace(r[|r| - 1]))
  {
    StripRight(StripLeft(s))
  }

  /** Where the stripped text starts in the original. */
  function StripStart(s: string): nat {
    |s| - |StripLeft(s)|
  }

  /** Stripping keeps the middle of the text: the text is whitespace, the stripped text, whitespace. */
  lemma StripParts(s: string)
    ensures StripStart(s) + |Strip(s)| <= |s|
    ensures s[StripStart(s)..StripStart(s) + |Strip(s)|] == Strip(s)
    ensures forall j :: 0 <= j < StripStart(s) ==> IsSpace(s[j])
    ensures forall j :: StripStart(s) + |Strip(s)| <= j < |s| ==> IsSpace(s[j])
  {
    var l := StripLeft(s);
    var i := |s| - |l|;
    var r := Strip(s);
    assert s[i..i + |r|] == l[..|r|];
    forall j | i + |r| <= j < |s|
      ensures IsSpace(s[j])
    {
      assert s[j] == l[j - i];
    }
  }

  /** Text with no whitespace at either end is left as it is. */
  lemma {:induction false} StripClean(s: string)
    requires s == [] || (!IsSpace(s[0]) && !IsSpace(s[|s| - 1]))
    ensures Strip(s) == s
  {
  }
}
