/** Byte strings and the splitting of a delimited string, as Go's strings.Split does it for a one-byte separator. */
module Text {

  type Byte = b: int | 0 <= b < 256

  function Split<T(==)>(s: seq<T>, sep: T): (parts: seq<seq<T>>)
    ensures |parts| >= 1
  {
    if s == [] then [[]]
    else
      var rest := Split(s[1..], sep);
      if s[0] == sep then [[]] + rest else [[s[0]] + rest[0]] + rest[1..]
  }

  // A string without the separator is its own single part.
  lemma {:induction false} SplitWhole<T>(s: seq<T>, sep: T)
    requires sep !in s
    ensures Split(s, sep) == [s]
  {
    if s != [] {
      SplitWhole(s[1..], sep);
      assert s == [s[0]] + s[1..];
    }
  }

  // Splitting cuts at the first separator and goes on behind it.
  lemma {:induction false} SplitCut<T>(a: seq<T>, b: seq<T>, sep: T)
    requires sep !in a
    ensures Split(a + [sep] + b, sep) == [a] + Split(b, sep)
  {
    var s := a + [sep] + b;
    if a == [] {
      assert s[1..] == b;
    } else {
      SplitCut(a[1..], b, sep);
      assert a == [a[0]] + a[1..];
      assert s[1..] == a[1..] + [sep] + b;
    }
  }

  // Seen from the other end: what stands behind the last separator is the last part.
  lemma {:induction false} SplitCutLast<T>(a: seq<T>, b: seq<T>, sep: T)
    requires sep !in b
    ensures Split(a + [sep] + b, sep) == Split(a, sep) + [b]
  {
    var s := a + [sep] + b;
    if a == [] {
      SplitWhole(b, sep);
      assert s[1..] == b;
    } else {
      SplitCutLast(a[1..], b, sep);
      assert s[1..] == a[1..] + [sep] + b;
    }
  }

  // The parts of a string hold no separator, and gluing them together again gives the string.
  function Join<T>(parts: seq<seq<T>>, sep: T): seq<T>
    requires |parts| >= 1
  {
    if |parts| == 1 then parts[0] else parts[0] + [sep] + Join(parts[1..], sep)
  }

  lemma {:induction false} JoinSplit<T>(s: seq<T>, sep: T)
    ensures forall p :: p in Split(s, sep) ==> sep !in p
    ensures Join(Split(s, sep), sep) == s
  {
    if s != [] {
      JoinSplit(s[1..], sep);
      var rest := Split(s[1..], sep);
      var parts := Split(s, sep);
      if s[0] == sep {
        assert parts[1..] == rest;
      } else {
        assert parts[0] == [s[0]] + rest[0] && parts[1..] == rest[1..];
      }
    }
  }
}
