/** C string operations on NUL-free strings: `strchr`, `strsep`, bounded copies. */
module Text {

  /** Position of the first `d`, or the length if there is none. */
  function IndexOf(s: string, d: char): (i: nat)
    ensures i <= |s|
    ensures d !in s[..i]
    ensures i < |s| ==> s[i] == d
  {
    if s == "" || s[0] == d then 0
    else
      var i := 1 + IndexOf(s[1..], d);
      assert s[..i] == [s[0]] + s[1..][..i - 1];
      i
  }

  lemma {:induction false} IndexOfAppend(a: string, d: char, b: string)
    requires d !in a
    ensures IndexOf(a + [d] + b, d) == |a|
  {
    if a != "" {
      assert (a + [d] + b)[1..] == a[1..] + [d] + b;
      IndexOfAppend(a[1..], d, b);
    }
  }

  lemma IndexOfAbsent(a: string, d: char)
    requires d !in a
    ensures IndexOf(a, d) == |a|
  {
  }

  /** The tokens `strsep` delivers one after the other; there is always at least one. */
  function Split(s: string, d: char): (r: seq<string>)
    ensures |r| >= 1
    decreases |s|
  {
    var i := IndexOf(s, d);
    if i == |s| then [s] else [s[..i]] + Split(s[i + 1..], d)
  }

  /** Every field behind its own separator. */
  function Fields(vals: seq<string>, d: char): string {
    if vals == [] then "" else [d] + vals[0] + Fields(vals[1..], d)
  }

  predicate FreeOf(vals: seq<string>, d: char) {
    forall i :: 0 <= i < |vals| ==> d !in vals[i]
  }

  /** Splitting is the left inverse of separating. */
  lemma {:induction false} SplitFields(head: string, vals: seq<string>, d: char)
    requires d !in head && FreeOf(vals, d)
    ensures Split(head + Fields(vals, d), d) == [head] + vals
    decreases |vals|
  {
    hide IndexOf, Split;
    if vals == [] {
      assert head + "" == head;
      SplitWhole(head, d);
    } else {
      var rest := vals[0] + Fields(vals[1..], d);
      assert head + Fields(vals, d) == head + [d] + rest;
      SplitFirst(head, d, rest);
      SplitFields(vals[0], vals[1..], d);
    }
  }

  lemma SplitWhole(s: string, d: char)
    requires d !in s
    ensures Split(s, d) == [s]
  {
    IndexOfAbsent(s, d);
  }

  lemma SplitFirst(head: string, d: char, rest: string)
    requires d !in head
    ensures Split(head + [d] + rest, d) == [head] + Split(rest, d)
  {
    hide IndexOf;
    var s := head + [d] + rest;
    IndexOfAppend(head, d, rest);
    assert s[..|head|] == head && s[|head| + 1..] == rest;
  }

  lemma {:induction false} FieldsAppend(a: seq<string>, b: seq<string>, d: char)
    ensures Fields(a + b, d) == Fields(a, d) + Fields(b, d)
  {
    if a == [] {
      assert a + b == b;
    } else {
      assert (a + b)[1..] == a[1..] + b;
      FieldsAppend(a[1..], b, d);
    }
  }

  /** What `snprintf(buf, size, s)` leaves in `buf` for a '%'-free `s`: at most `size - 1` characters. */
  function Bounded(s: string, size: nat): (r: string)
    requires size > 0
    ensures |r| < size && r <= s
    ensures |s| < size ==> r == s
  {
    if |s| < size then s else s[..size - 1]
  }

  predicate NulFree(s: string) {
    '\0' !in s
  }
}
