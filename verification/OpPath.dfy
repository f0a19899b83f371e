/** pkg/patches/path.go: taking a printed path apart from the right. */
module OpPath {
  import opened Strings

  /** One step of a path: a property, a position (negative from the end), or all children. */
  datatype Seg = Key(name: string) | At(index: int) | Every

  datatype Style = Dotted | SingleQuoted | DoubleQuoted

  /** A step together with the notation it is written in. */
  datatype Step = Step(seg: Seg, style: Style)

  // ----- decimal numbers

  function Digit(c: char): (d: Option<int>) {
    if '0' <= c <= '9' then Some((c - '0') as int) else None
  }

  function DigitChar(d: nat): char
    requires d < 10
  {
    '0' + d as char
  }

  function DecimalNat(n: nat): (s: string)
    ensures s != "" && forall c :: c in s ==> '0' <= c <= '9'
  {
    if n < 10 then [DigitChar(n)] else DecimalNat(n / 10) + [DigitChar(n % 10)]
  }

  function Decimal(i: int): string {
    if i < 0 then "-" + DecimalNat(-i) else DecimalNat(i)
  }

  function ParseNat(s: string): Option<int> {
    if s == "" then None
    else
      var last := Digit(s[|s| - 1]);
      if last.None? then None
      else if |s| == 1 then last
      else
        var init := ParseNat(s[..|s| - 1]);
        if init.None? then None else Some(10 * init.value + last.value)
  }

  /** strconv.Atoi, without its range check. */
  function Atoi(s: string): Option<int> {
    if s != "" && (s[0] == '-' || s[0] == '+') then
      var n := ParseNat(s[1..]);
      if n.None? then None else Some(if s[0] == '-' then -n.value else n.value)
    else
      var n := ParseNat(s);
      n
  }

  lemma {:induction false} ParseDecimalNat(n: nat)
    ensures ParseNat(DecimalNat(n)) == Some(n)
  {
    if n >= 10 {
      ParseDecimalNat(n / 10);
      var s := DecimalNat(n);
      assert s[..|s| - 1] == DecimalNat(n / 10);
    }
  }

  lemma {:induction false} AtoiDecimal(i: int)
    ensures Atoi(Decimal(i)) == Some(i)
  {
    ParseDecimalNat(if i < 0 then -i else i);
    if i < 0 {
      assert Decimal(i)[1..] == DecimalNat(-i);
    } else {
      assert DecimalNat(i)[0] in DecimalNat(i);
    }
  }

  // ----- printed paths

  function Name(seg: Seg): string {
    match seg
    case Key(name) => name
    case At(index) => Decimal(index)
    case Every => "*"
  }

  function Inner(step: Step): string {
    match step.style
    case DoubleQuoted => if step.seg.Key? then "\"" + Name(step.seg) + "\"" else Name(step.seg)
    case _ => if step.seg.Key? then "'" + Name(step.seg) + "'" else Name(step.seg)
  }

  predicate WrittenWithDot(step: Step) {
    step.style == Dotted && !step.seg.At?
  }

  function PrintStep(step: Step): string {
    if WrittenWithDot(step) then "." + Name(step.seg) else "[" + Inner(step) + "]"
  }

  /** The base is the root sign or an undotted first property. */
  function Print(base: string, steps: seq<Step>): string {
    if steps == [] then base
    else Print(base, steps[..|steps| - 1]) + PrintStep(steps[|steps| - 1])
  }

  predicate Plain(s: string) {
    '.' !in s && '$' !in s && '[' !in s && ']' !in s && '\'' !in s && '"' !in s
  }

  predicate Printable(step: Step) {
    step.seg.Key? ==>
      if step.style == Dotted then Plain(step.seg.name)
      else '[' !in step.seg.name && ']' !in step.seg.name && '\'' !in step.seg.name && '"' !in step.seg.name
  }

  // ----- the source's functions

  /** The least position from i on at which the bracket pattern matches up to the end of the path, -1 if none. */
  function BracketStart(path: string, i: nat): (r: int)
    requires i <= |path|
    ensures r == -1 || (i <= r < |path| && BracketAt(path, r))
    decreases |path| - i
  {
    if i == |path| then -1
    else if BracketAt(path, i) then i
    else BracketStart(path, i + 1)
  }

  /** An opening bracket, at least one character other than a closing bracket, and the closing bracket at the end. */
  predicate BracketAt(path: string, i: nat)
    requires i < |path|
  {
    path[i] == '[' && i + 2 < |path| && path[|path| - 1] == ']' && ']' !in path[i + 1..|path| - 1]
  }

  /** Splitting at every dollar sign and dot. */
  function Tokens(s: string): (parts: seq<string>)
    ensures |parts| >= 1
  {
    if s == "" then [""]
    else
      var rest := Tokens(s[1..]);
      if s[0] == '$' || s[0] == '.' then [""] + rest else [[s[0]] + rest[0]] + rest[1..]
  }

  function GetChildName(path: string): string {
    if path == "$" || path == "." then ""
    else
      var i := BracketStart(path, 0);
      if i >= 0 then ReplaceAll(ReplaceAll(path[i + 1..|path| - 1], "'", ""), "\"", "")
      else
        var tokens := Tokens(path);
        tokens[|tokens| - 1]
  }

  function GetParentPath(path: string): string {
    var i := BracketStart(path, 0);
    if i >= 0 then path[..i]
    else
      var tokens := Split(path, '.');
      Join(tokens[..|tokens| - 1], '.')
  }

  predicate IsSequenceChild(path: string) {
    var propertyName := GetChildName(path);
    propertyName != "" && Atoi(propertyName).Some?
  }

  // ----- round trip

  /** Every opening bracket of a text is closed later in it. */
  ghost predicate Closed(s: string) {
    forall i :: 0 <= i < |s| && s[i] == '[' ==> ']' in s[i + 1..]
  }

  lemma {:induction false} ClosedConcat(a: string, b: string)
    requires Closed(a) && Closed(b)
    ensures Closed(a + b)
  {
    forall i | 0 <= i < |a + b| && (a + b)[i] == '['
      ensures ']' in (a + b)[i + 1..]
    {
      if i < |a| {
        assert (a + b)[i + 1..] == a[i + 1..] + b;
      } else {
        assert (a + b)[i + 1..] == b[i - |a| + 1..];
      }
    }
  }

  lemma {:induction false} StepClosed(step: Step)
    requires Printable(step)
    ensures Closed(PrintStep(step))
  {
    InnerPlain(step);
    var text := PrintStep(step);
    if WrittenWithDot(step) {
      assert '[' !in text;
    } else {
      forall i | 0 <= i < |text| && text[i] == '['
        ensures ']' in text[i + 1..]
      {
        assert text[i + 1..][|text| - 1 - (i + 1)] == ']';
      }
    }
  }

  lemma {:induction false} PrintClosed(base: string, steps: seq<Step>)
    requires '[' !in base && forall s :: s in steps ==> Printable(s)
    ensures Closed(Print(base, steps))
  {
    if steps != [] {
      PrintClosed(base, steps[..|steps| - 1]);
      StepClosed(steps[|steps| - 1]);
      ClosedConcat(Print(base, steps[..|steps| - 1]), PrintStep(steps[|steps| - 1]));
    }
  }

  lemma {:induction false} InnerPlain(step: Step)
    requires Printable(step)
    ensures !WrittenWithDot(step) ==> Inner(step) != "" && '[' !in Inner(step) && ']' !in Inner(step)
    ensures WrittenWithDot(step) ==> Plain(Name(step.seg))
  {
  }

  lemma {:induction false} StripQuotes(a: string, q: string, b: string)
    requires q == "'" || q == "\""
    requires q[0] !in b
    ensures ReplaceAll(b, q, "") == b
    ensures ReplaceAll(q + b + q, q, "") == b
    ensures a == q + b + q ==> ReplaceAll(a, q, "") == b
  {
    CopyBefore(b, q, "");
    CopyBefore(b, q, q);
    assert b + "" == b;
    assert ReplaceAll(q, q, "") == "" by { assert q[1..] == ""; }
    assert (q + b + q)[1..] == b + q;
    assert q <= q + b + q;
  }

  lemma {:induction false} CopyBefore(b: string, q: string, rest: string)
    requires |q| == 1 && q[0] !in b
    ensures ReplaceAll(b + rest, q, "") == b + ReplaceAll(rest, q, "")
  {
    if b == "" {
      assert b + rest == rest;
    } else {
      assert (b + rest)[1..] == b[1..] + rest && (b + rest)[0] == b[0] && b[0] in b;
      CopyBefore(b[1..], q, rest);
    }
  }

  lemma {:induction false} BracketStartIs(path: string, i: nat, at: nat)
    requires i <= at < |path| && BracketAt(path, at)
    requires forall j :: i <= j < at ==> !BracketAt(path, j)
    ensures BracketStart(path, i) == at
    decreases at - i
  {
    if i < at {
      BracketStartIs(path, i + 1, at);
    }
  }

  lemma {:induction false} NoBracketStart(path: string, i: nat)
    requires i <= |path| && (path == "" || path[|path| - 1] != ']')
    ensures BracketStart(path, i) == -1
    decreases |path| - i
  {
    if i < |path| {
      NoBracketStart(path, i + 1);
    }
  }

  lemma {:induction false} TokensSingle(name: string)
    requires '.' !in name && '$' !in name
    ensures Tokens(name) == [name]
  {
    if name != "" {
      TokensSingle(name[1..]);
      assert name == [name[0]] + name[1..];
    }
  }

  lemma {:induction false} TokensLast(prefix: string, name: string)
    requires '.' !in name && '$' !in name
    ensures var t := Tokens(prefix + "." + name); t[|t| - 1] == name && |t| >= 2
  {
    var s := prefix + "." + name;
    if prefix != "" {
      assert s[1..] == prefix[1..] + "." + name;
      TokensLast(prefix[1..], name);
    } else {
      assert s[1..] == name;
      TokensSingle(name);
    }
  }

  /** Brackets that are already closed do not reach the end of the path. */
  lemma {:induction false} ClosedNotAtEnd(prefix: string, rest: string, j: nat)
    requires Closed(prefix) && j < |prefix| && rest != ""
    ensures !BracketAt(prefix + rest, j)
  {
    var path := prefix + rest;
    if path[j] == '[' && j + 2 < |path| {
      assert prefix[j] == '[';
      assert path[j + 1..|path| - 1] == prefix[j + 1..] + rest[..|rest| - 1];
    }
  }

  lemma {:induction false} BracketStep(prefix: string, inner: string)
    requires Closed(prefix) && inner != "" && ']' !in inner
    ensures var path := prefix + ("[" + inner + "]");
      && BracketStart(path, 0) == |prefix|
      && path[..|prefix|] == prefix
      && path[|prefix| + 1..|path| - 1] == inner
  {
    var rest := "[" + inner + "]";
    var path := prefix + rest;
    assert path[|prefix| + 1..|path| - 1] == inner;
    forall j | 0 <= j < |prefix|
      ensures !BracketAt(path, j)
    {
      ClosedNotAtEnd(prefix, rest, j);
    }
    BracketStartIs(path, 0, |prefix|);
  }

  lemma {:induction false} DotStep(prefix: string, name: string)
    requires Plain(name)
    ensures var path := prefix + ("." + name);
      BracketStart(path, 0) == -1 && GetParentPath(path) == prefix && Tokens(path)[|Tokens(path)| - 1] == name
  {
    var path := prefix + ("." + name);
    assert path == prefix + ['.'] + name && path == prefix + "." + name;
    assert path[|path| - 1] != ']' by {
      if name != "" {
        assert path[|path| - 1] == name[|name| - 1];
      }
    }
    NoBracketStart(path, 0);
    TokensLast(prefix, name);
    SplitAround(prefix, '.', name);
    SplitSingle(name, '.');
    var tokens := Split(path, '.');
    assert tokens[..|tokens| - 1] == Split(prefix, '.');
    JoinSplit(prefix, '.');
  }

  lemma {:induction false} DotCase(prefix: string, step: Step)
    requires prefix != "" && Printable(step) && WrittenWithDot(step)
    ensures GetChildName(prefix + PrintStep(step)) == Name(step.seg)
    ensures GetParentPath(prefix + PrintStep(step)) == prefix
  {
    InnerPlain(step);
    DotStep(prefix, Name(step.seg));
    hide Tokens, BracketStart, Plain, Split, Join, ReplaceAll;
    assert |prefix + PrintStep(step)| > 1;
  }

  lemma {:induction false} BracketCase(prefix: string, step: Step)
    requires prefix != "" && Closed(prefix) && Printable(step) && !WrittenWithDot(step)
    ensures GetChildName(prefix + PrintStep(step)) == Name(step.seg)
    ensures GetParentPath(prefix + PrintStep(step)) == prefix
  {
    InnerPlain(step);
    BracketStep(prefix, Inner(step));
    InnerStripped(step);
    hide Tokens, BracketStart, Closed, Plain, Split, Join, ReplaceAll, Inner, Name, Printable;
    assert |prefix + PrintStep(step)| > 1;
  }

  /** The child name is the name of the last step and the parent path is the printed prefix. */
  lemma {:induction false} SplitPrinted(base: string, steps: seq<Step>)
    requires '[' !in base && base != "" && steps != [] && forall s :: s in steps ==> Printable(s)
    ensures GetChildName(Print(base, steps)) == Name(steps[|steps| - 1].seg)
    ensures GetParentPath(Print(base, steps)) == Print(base, steps[..|steps| - 1])
  {
    var init, step := steps[..|steps| - 1], steps[|steps| - 1];
    var prefix := Print(base, init);
    PrintClosed(base, init);
    PrintGrows(base, init);
    assert Print(base, steps) == prefix + PrintStep(step);
    hide Print, GetChildName, GetParentPath, Closed, PrintStep, Printable, Name;
    if WrittenWithDot(step) {
      DotCase(prefix, step);
    } else {
      BracketCase(prefix, step);
    }
  }

  /** Removing both kinds of quotes from the bracket text leaves the name. */
  lemma {:induction false} InnerStripped(step: Step)
    requires Printable(step) && !WrittenWithDot(step)
    ensures ReplaceAll(ReplaceAll(Inner(step), "'", ""), "\"", "") == Name(step.seg)
  {
    var name := Name(step.seg);
    NameQuoteFree(step);
    var once := ReplaceAll(Inner(step), "'", "");
    if step.seg.Key? && step.style != DoubleQuoted {
      StripQuotes(Inner(step), "'", name);
      StripQuotes(name, "\"", name);
    } else if step.seg.Key? {
      var quoted := "\"" + name + "\"";
      assert '\'' !in quoted;
      StripQuotes(quoted, "'", quoted);
      StripQuotes(quoted, "\"", name);
    } else {
      StripQuotes(name, "'", name);
      StripQuotes(name, "\"", name);
    }
  }

  lemma {:induction false} NameQuoteFree(step: Step)
    requires Printable(step)
    ensures '\'' !in Name(step.seg) && '"' !in Name(step.seg)
  {
  }

  function Ancestor(path: string, n: nat): string
    decreases n
  {
    if n == 0 then path else Ancestor(GetParentPath(path), n - 1)
  }

  /** Going up n times drops n steps. */
  lemma {:induction false} AncestorDrops(base: string, steps: seq<Step>, n: nat)
    requires '[' !in base && base != "" && n <= |steps| && forall s :: s in steps ==> Printable(s)
    ensures Ancestor(Print(base, steps), n) == Print(base, steps[..|steps| - n])
    decreases n
  {
    hide Print, GetParentPath, GetChildName, Ancestor, Printable;
    AncestorUnfold(Print(base, steps), n);
    if n == 0 {
      assert steps[..|steps|] == steps;
    } else {
      var init := steps[..|steps| - 1];
      SplitPrinted(base, steps);
      AncestorDrops(base, init, n - 1);
      assert init[..|init| - (n - 1)] == steps[..|steps| - n];
    }
  }

  lemma {:induction false} AncestorUnfold(path: string, n: nat)
    ensures n == 0 ==> Ancestor(path, n) == path
    ensures n > 0 ==> Ancestor(path, n) == Ancestor(GetParentPath(path), n - 1)
  {
  }

  /** The base is reached after exactly as many steps up as were printed. */
  lemma {:induction false} AncestorPrinted(base: string, steps: seq<Step>, n: nat)
    requires '[' !in base && base != "" && n <= |steps| && forall s :: s in steps ==> Printable(s)
    ensures Ancestor(Print(base, steps), n) == Print(base, steps[..|steps| - n])
    ensures Ancestor(Print(base, steps), n) == base <==> n == |steps|
  {
    AncestorDrops(base, steps, n);
    PrintGrows(base, steps[..|steps| - n]);
    if n == |steps| {
      assert steps[..0] == [];
    }
  }

  lemma {:induction false} PrintGrows(base: string, steps: seq<Step>)
    ensures |Print(base, steps)| >= |base| + |steps|
  {
    if steps != [] {
      PrintGrows(base, steps[..|steps| - 1]);
    }
  }

  /** An undotted first property, or the root sign, has the empty parent path. */
  lemma {:induction false} BaseHasNoParent(base: string)
    requires base == "$" || Plain(base)
    ensures GetParentPath(base) == ""
    ensures GetChildName(base) == if base == "$" then "" else base
  {
    assert base != "" ==> base[|base| - 1] in base;
    NoBracketStart(base, 0);
    SplitSingle(base, '.');
    if base != "$" {
      TokensSingle(base);
    }
  }
}
