/** The few Go string functions that the modelled code calls. */
module Strings {

  datatype Option<T> = None | Some(value: T)

  /** strings.Split with a one-character separator. */
  function Split(s: string, sep: char): (parts: seq<string>)
    ensures |parts| >= 1
  {
    if s == [] then [""]
    else
      var rest := Split(s[1..], sep);
      if s[0] == sep then [""] + rest else [[s[0]] + rest[0]] + rest[1..]
  }

  /** strings.Join with a one-character separator. */
  function Join(parts: seq<string>, sep: char): string {
    if parts == [] then ""
    else if |parts| == 1 then parts[0]
    else parts[0] + [sep] + Join(parts[1..], sep)
  }

  /** strings.ReplaceAll for a non-empty pattern: leftmost matches, no overlap. */
  function ReplaceAll(s: string, from: string, to: string): string
    requires from != ""
  {
    if s == "" then ""
    else if from <= s then to + ReplaceAll(s[|from|..], from, to)
    else [s[0]] + ReplaceAll(s[1..], from, to)
  }

  lemma {:induction false} Assoc<T>(a: seq<T>, b: seq<T>, c: seq<T>)
    ensures a + b + c == a + (b + c)
  {
  }

  lemma {:induction false} SplitAround(a: string, sep: char, b: string)
    ensures Split(a + [sep] + b, sep) == Split(a, sep) + Split(b, sep)
  {
    var s := a + [sep] + b;
    if a == "" {
      assert s == [sep] + b;
      assert s[1..] == b;
    } else {
      assert s[1..] == a[1..] + [sep] + b;
      SplitAround(a[1..], sep, b);
    }
  }

  lemma {:induction false} SplitSingle(s: string, sep: char)
    ensures |Split(s, sep)| == 1 <==> sep !in s
    ensures sep !in s ==> Split(s, sep) == [s]
  {
    if s != "" {
      SplitSingle(s[1..], sep);
      assert s == [s[0]] + s[1..];
    }
  }

  lemma {:induction false} JoinCons(first: string, rest: seq<string>, sep: char)
    requires rest != []
    ensures Join([first] + rest, sep) == first + [sep] + Join(rest, sep)
  {
    assert ([first] + rest)[1..] == rest;
  }

  lemma {:induction false} JoinLonger(c: char, parts: seq<string>, sep: char)
    requires parts != []
    ensures Join([[c] + parts[0]] + parts[1..], sep) == [c] + Join(parts, sep)
  {
    var first, rest := [c] + parts[0], parts[1..];
    assert parts == [parts[0]] + rest;
    if rest != [] {
      JoinCons(first, rest, sep);
      JoinCons(parts[0], rest, sep);
      assert first + [sep] + Join(rest, sep) == [c] + (parts[0] + [sep] + Join(rest, sep));
    }
  }

  lemma {:induction false} SplitUnfold(s: string, sep: char)
    requires s != ""
    ensures var rest := Split(s[1..], sep);
      Split(s, sep) == if s[0] == sep then [""] + rest else [[s[0]] + rest[0]] + rest[1..]
  {
  }

  lemma {:induction false} JoinSplit(s: string, sep: char)
    ensures Join(Split(s, sep), sep) == s
  {
    if s != "" {
      var rest := Split(s[1..], sep);
      JoinSplit(s[1..], sep);
      SplitUnfold(s, sep);
      assert s == [s[0]] + s[1..];
      hide Join, Split;
      if s[0] == sep {
        JoinCons("", rest, sep);
      } else {
        JoinLonger(s[0], rest, sep);
      }
    }
  }

  /** Splitting at the first separator and joining the rest recovers a head free of separators. */
  lemma {:induction false} SplitHead(head: string, sep: char, tail: string)
    requires sep !in head
    ensures Split(head + [sep] + tail, sep)[0] == head
    ensures Join(Split(head + [sep] + tail, sep)[1..], sep) == tail
  {
    SplitAround(head, sep, tail);
    SplitSingle(head, sep);
    assert ([head] + Split(tail, sep))[1..] == Split(tail, sep);
    JoinSplit(tail, sep);
  }

  lemma {:induction false} ReplaceAllKeepsOut(s: string, from: string, to: string, c: char)
    requires from != "" && c !in s && c !in to
    ensures c !in ReplaceAll(s, from, to)
    decreases |s|
  {
    if s != "" {
      if from <= s {
        ReplaceAllKeepsOut(s[|from|..], from, to, c);
      } else {
        ReplaceAllKeepsOut(s[1..], from, to, c);
      }
    }
  }
}
