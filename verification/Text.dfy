/** Byte strings, as the C++ code handles them. A byte is a `char`; the code of a
    byte is 0..255, and every statement below is about all strings, so in
    particular about all byte strings. */
module Text {
  datatype Option<+T> = None | Some(value: T)

  /** `x` before the elements of `rest`, if there are any results at all. */
  function Cons<T>(x: T, rest: Option<seq<T>>): Option<seq<T>> {
    if rest.None? then None else Some([x] + rest.value)
  }

  /** The outcome of a loop that has produced `done` and whose rest will produce `rest`. */
  function After<T>(done: seq<T>, rest: Option<seq<T>>): Option<seq<T>> {
    if rest.None? then None else Some(done + rest.value)
  }

  lemma AfterCons<T>(done: seq<T>, x: T, rest: Option<seq<T>>)
    ensures After(done, Cons(x, rest)) == After(done + [x], rest)
  {
    if rest.Some? {
      assert done + ([x] + rest.value) == (done + [x]) + rest.value;
    }
  }

  lemma AfterNothing<T>(rest: Option<seq<T>>)
    ensures After([], rest) == rest
  {
    if rest.Some? {
      assert [] + rest.value == rest.value;
    }
  }

  const CRLF := "\r\n"

  /** Pieces pushed one after the other into a buffer. */
  function Concat(parts: seq<string>): string {
    if parts == [] then "" else parts[0] + Concat(parts[1..])
  }

  lemma {:induction false} ConcatAppend(a: seq<string>, b: seq<string>)
    ensures Concat(a + b) == Concat(a) + Concat(b)
  {
    if a == [] {
      assert a + b == b;
    } else {
      assert (a + b)[1..] == a[1..] + b;
      ConcatAppend(a[1..], b);
    }
  }

  /** The vector without its last element. */
  function Front<T>(s: seq<T>): seq<T>
    requires s != []
  {
    s[..|s| - 1]
  }

  function Last<T>(s: seq<T>): T
    requires s != []
  {
    s[|s| - 1]
  }

  /** Length of the longest prefix of `s` without `c`. */
  function Find(s: string, c: char): (k: nat)
    ensures k <= |s|
    ensures c !in s[..k]
    ensures k < |s| ==> s[k] == c
  {
    if s == "" || s[0] == c then 0
    else
      assert forall j | 0 <= j < Find(s[1..], c) + 1 :: s[j] != c;
      Find(s[1..], c) + 1
  }

  /** `Find` stops at the separator that follows a separator-free prefix. */
  lemma {:induction false} FindAt(a: string, c: char, b: string)
    requires c !in a
    ensures Find(a, c) == |a|
    ensures Find(a + [c] + b, c) == |a|
  {
    if a == "" {
      assert (a + [c] + b)[0] == c;
    } else {
      assert (a + [c] + b)[0] == a[0];
      assert (a + [c] + b)[1..] == a[1..] + [c] + b;
      FindAt(a[1..], c, b);
    }
  }

  lemma Assoc(a: string, b: string, c: string)
    ensures (a + b) + c == a + (b + c)
  {
  }
}
