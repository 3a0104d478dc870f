// The printed form of a logical expression, and a reader that recovers the expression from it.
module SignatureText {
  import opened Words

  datatype Op = Is | Over | Under

  // Sums and disjunctions print alike, so here they are one.
  datatype Sig =
    | Num(n: nat)
    | All(parts: seq<Sig>)
    | Any(parts: seq<Sig>)
    | Cmp(op: Op, part: Sig, n: nat, uniq: Option<nat>)

  predicate WellFormedSig(s: Sig) {
    match s
    case Num(_) => true
    case All(parts) => |parts| >= 2 && forall p :: p in parts ==> WellFormedSig(p)
    case Any(parts) => |parts| >= 2 && forall p :: p in parts ==> WellFormedSig(p)
    case Cmp(op, part, _, uniq) => WellFormedSig(part) && (uniq.Some? ==> op.Is?)
  }

  // ---- printing ----

  function DigitChar(d: nat): char
    requires d < 10
  {
    ('0' as int + d) as char
  }

  predicate IsDigit(c: char) { '0' <= c <= '9' }

  function Digits(n: nat): (s: string)
    ensures s != [] && forall c :: c in s ==> IsDigit(c)
  {
    if n < 10 then [DigitChar(n)] else Digits(n / 10) + [DigitChar(n % 10)]
  }

  function OpChar(op: Op): char {
    match op
    case Is => '='
    case Over => '>'
    case Under => '<'
  }

  function Print(s: Sig): string {
    match s
    case Num(n) => Digits(n)
    case All(parts) => "(" + PrintParts(parts, '&') + ")"
    case Any(parts) => "(" + PrintParts(parts, '|') + ")"
    case Cmp(op, part, n, uniq) =>
      "(" + Print(part) + [OpChar(op)] + Digits(n) + (if uniq.Some? then "," + Digits(uniq.value) else "") + ")"
  }

  function PrintParts(parts: seq<Sig>, sep: char): string {
    if parts == [] then ""
    else if |parts| == 1 then Print(parts[0])
    else Print(parts[0]) + [sep] + PrintParts(parts[1..], sep)
  }

  // Groups counted while printing: one for every parenthesis but that of an equality.
  function Groups(s: Sig): nat {
    match s
    case Num(_) => 0
    case All(parts) => 1 + GroupsOf(parts)
    case Any(parts) => 1 + GroupsOf(parts)
    case Cmp(op, part, _, _) => (if op.Is? then 0 else 1) + Groups(part)
  }

  function GroupsOf(parts: seq<Sig>): nat {
    if parts == [] then 0 else Groups(parts[0]) + GroupsOf(parts[1..])
  }

  // How often a character is written.
  function Chars(s: string, c: char): nat { if s == [] then 0 else (if s[0] == c then 1 else 0) + Chars(s[1..], c) }

  lemma {:induction false} CharsConcat(s: string, t: string, c: char)
    ensures Chars(s + t, c) == Chars(s, c) + Chars(t, c)
  {
    if s == [] {
      assert s + t == t;
    } else {
      assert (s + t)[0] == s[0] && (s + t)[1..] == s[1..] + t;
      CharsConcat(s[1..], t, c);
    }
  }

  lemma {:induction false} NoChars(s: string, c: char)
    requires c !in s
    ensures Chars(s, c) == 0
  {
    if s != [] { NoChars(s[1..], c); }
  }

  lemma {:induction false} OneChar(d: char, c: char)
    ensures Chars([d], c) == if d == c then 1 else 0
  {
    assert [d][1..] == [];
  }

  lemma {:induction false} DigitsPlain(n: nat, c: char)
    requires !IsDigit(c)
    ensures Chars(Digits(n), c) == 0
  {
    NoChars(Digits(n), c);
  }

  // Between parentheses.
  lemma {:induction false} CharsWrapped(s: string, c: char)
    ensures Chars("(" + s + ")", c) == Chars(s, c) + (if c == '(' then 1 else 0) + if c == ')' then 1 else 0
  {
    CharsConcat("(" + s, ")", c);
    CharsConcat("(", s, c);
    OneChar('(', c);
    OneChar(')', c);
  }

  // The groups counted are the opening parentheses of the text, but for one to each equality sign.
  lemma {:induction false} GroupsWritten(s: Sig)
    ensures Groups(s) + Chars(Print(s), '=') == Chars(Print(s), '(')
    decreases s, 1
  {
    match s
    case Num(n) =>
      DigitsPlain(n, '=');
      DigitsPlain(n, '(');
    case All(parts) => GroupsJoined(s, parts, '&');
    case Any(parts) => GroupsJoined(s, parts, '|');
    case Cmp(op, part, n, uniq) =>
      GroupsWritten(part);
      BoundWritten(s, op, part, n, uniq, '=');
      BoundWritten(s, op, part, n, uniq, '(');
  }

  lemma {:induction false} BoundWritten(s: Sig, op: Op, part: Sig, n: nat, uniq: Option<nat>, c: char)
    requires s == Cmp(op, part, n, uniq) && (c == '=' || c == '(')
    ensures Chars(Print(s), c) == Chars(Print(part), c) + if c == '(' || op.Is? then 1 else 0
  {
    hide Digits;
    var tail := if uniq.Some? then "," + Digits(uniq.value) else "";
    assert Print(s) == "(" + (Print(part) + [OpChar(op)] + Digits(n) + tail) + ")";
    CharsWrapped(Print(part) + [OpChar(op)] + Digits(n) + tail, c);
    CharsConcat(Print(part) + [OpChar(op)] + Digits(n), tail, c);
    CharsConcat(Print(part) + [OpChar(op)], Digits(n), c);
    CharsConcat(Print(part), [OpChar(op)], c);
    OneChar(OpChar(op), c);
    DigitsPlain(n, c);
    if uniq.Some? {
      CharsConcat(",", Digits(uniq.value), c);
      OneChar(',', c);
      DigitsPlain(uniq.value, c);
    }
  }

  lemma {:induction false} GroupsJoined(s: Sig, parts: seq<Sig>, sep: char)
    requires s == (if sep == '&' then All(parts) else Any(parts)) && (sep == '&' || sep == '|')
    ensures Groups(s) + Chars(Print(s), '=') == Chars(Print(s), '(')
    decreases s, 0
  {
    PartsWritten(s, parts, sep);
    CharsWrapped(PrintParts(parts, sep), '=');
    CharsWrapped(PrintParts(parts, sep), '(');
  }

  lemma {:induction false} PartsWritten(s: Sig, parts: seq<Sig>, sep: char)
    requires (forall p :: p in parts ==> p < s) && (sep == '&' || sep == '|')
    ensures GroupsOf(parts) + Chars(PrintParts(parts, sep), '=') == Chars(PrintParts(parts, sep), '(')
    decreases s, 0, |parts|
  {
    if parts != [] {
      TailIn(parts);
      GroupsWritten(parts[0]);
      PartsWritten(s, parts[1..], sep);
      if |parts| > 1 {
        PartChars(parts, sep, '=');
        PartChars(parts, sep, '(');
      }
    }
  }

  lemma {:induction false} PartChars(parts: seq<Sig>, sep: char, c: char)
    requires |parts| > 1 && c != sep
    ensures Chars(PrintParts(parts, sep), c) == Chars(Print(parts[0]), c) + Chars(PrintParts(parts[1..], sep), c)
  {
    CharsConcat(Print(parts[0]) + [sep], PrintParts(parts[1..], sep), c);
    CharsConcat(Print(parts[0]), [sep], c);
    OneChar(sep, c);
  }

  // ---- reading ----

  function ReadDigits(s: string, n: nat): (r: (nat, string))
    ensures |r.1| <= |s|
  {
    if s != [] && IsDigit(s[0]) then ReadDigits(s[1..], 10 * n + (s[0] as int - '0' as int)) else (n, s)
  }

  function ReadNumber(s: string): (r: Option<(nat, string)>)
    ensures r.Some? ==> |r.value.1| < |s|
  {
    if s != [] && IsDigit(s[0]) then Some(ReadDigits(s, 0)) else None
  }

  function Read(s: string): (r: Option<(Sig, string)>)
    ensures r.Some? ==> |r.value.1| < |s|
    decreases |s|, 1
  {
    if s == [] then None
    else if s[0] == '(' then
      var first := Read(s[1..]);
      if first.None? || first.value.1 == [] then None
      else
        var (part, rest) := first.value;
        if rest[0] == '&' || rest[0] == '|' then
          var more := ReadParts(rest, rest[0]);
          if more.None? then None
          else Some((if rest[0] == '&' then All([part] + more.value.0) else Any([part] + more.value.0), more.value.1))
        else if rest[0] == '=' || rest[0] == '>' || rest[0] == '<' then
          var op := if rest[0] == '=' then Is else if rest[0] == '>' then Over else Under;
          ReadBound(part, op, rest[1..])
        else None
    else
      var n := ReadNumber(s);
      if n.None? then None else Some((Num(n.value.0), n.value.1))
  }

  // The numbers of a compare and its closing parenthesis.
  function ReadBound(part: Sig, op: Op, s: string): (r: Option<(Sig, string)>)
    ensures r.Some? ==> |r.value.1| < |s|
  {
    var n := ReadNumber(s);
    if n.None? || n.value.1 == [] then None
    else
      var rest := n.value.1;
      if rest[0] == ')' then Some((Cmp(op, part, n.value.0, None), rest[1..]))
      else if rest[0] == ',' then
        var u := ReadNumber(rest[1..]);
        if u.None? || u.value.1 == [] || u.value.1[0] != ')' then None
        else Some((Cmp(op, part, n.value.0, Some(u.value.0)), u.value.1[1..]))
      else None
  }

  // Separator and part, again and again, up to the closing parenthesis.
  function ReadParts(s: string, sep: char): (r: Option<(seq<Sig>, string)>)
    ensures r.Some? ==> |r.value.1| < |s|
    decreases |s|, 0
  {
    if s == [] then None
    else if s[0] == ')' then Some(([], s[1..]))
    else if s[0] != sep then None
    else
      var part := Read(s[1..]);
      if part.None? then None
      else
        var more := ReadParts(part.value.1, sep);
        if more.None? then None else Some(([part.value.0] + more.value.0, more.value.1))
  }

  // ---- reading undoes printing ----

  predicate Ends(rest: string) { rest == [] || !IsDigit(rest[0]) }

  lemma {:induction false} ReadDigitsPrinted(n: nat, rest: string)
    ensures ReadDigits(Digits(n) + rest, 0) == ReadDigits(rest, n)
  {
    if n < 10 {
      assert ([DigitChar(n)] + rest)[1..] == rest;
    } else {
      var d := [DigitChar(n % 10)];
      assert Digits(n) + rest == Digits(n / 10) + (d + rest);
      ReadDigitsPrinted(n / 10, d + rest);
      assert (d + rest)[1..] == rest;
    }
  }

  lemma {:induction false} ReadNumberPrinted(n: nat, rest: string)
    requires Ends(rest)
    ensures ReadNumber(Digits(n) + rest) == Some((n, rest))
  {
    ReadDigitsPrinted(n, rest);
    assert (Digits(n) + rest)[0] in Digits(n);
  }

  lemma {:induction false} ReadPrinted(s: Sig, rest: string)
    requires WellFormedSig(s) && Ends(rest)
    ensures Read(Print(s) + rest) == Some((s, rest))
    decreases s, 1
  {
    match s
    case Num(n) =>
      ReadNumberPrinted(n, rest);
      assert (Digits(n) + rest)[0] in Digits(n);
    case All(parts) => ReadJoined(s, parts, '&', rest);
    case Any(parts) => ReadJoined(s, parts, '|', rest);
    case Cmp(op, part, n, uniq) =>
      hide Print, Read, ReadBound;
      ReadPrinted(part, [OpChar(op)] + BoundText(n, uniq) + rest);
      ReadCompare(op, part, n, uniq, rest);
  }

  function BoundText(n: nat, uniq: Option<nat>): string {
    Digits(n) + (if uniq.Some? then "," + Digits(uniq.value) else "") + ")"
  }

  lemma {:induction false} ReadBoundPrinted(part: Sig, op: Op, n: nat, uniq: Option<nat>, rest: string)
    ensures ReadBound(part, op, BoundText(n, uniq) + rest) == Some((Cmp(op, part, n, uniq), rest))
  {
    var tail := (if uniq.Some? then "," + Digits(uniq.value) else "") + ")" + rest;
    assert BoundText(n, uniq) + rest == Digits(n) + tail;
    ReadNumberPrinted(n, tail);
    if uniq.Some? {
      assert tail == "," + (Digits(uniq.value) + (")" + rest));
      assert tail[1..] == Digits(uniq.value) + (")" + rest);
      ReadNumberPrinted(uniq.value, ")" + rest);
      assert (")" + rest)[1..] == rest;
    } else {
      assert tail == ")" + rest && tail[1..] == rest;
    }
  }

  lemma {:induction false} ReadCompare(op: Op, part: Sig, n: nat, uniq: Option<nat>, rest: string)
    requires var tail := [OpChar(op)] + BoundText(n, uniq) + rest; Read(Print(part) + tail) == Some((part, tail))
    ensures Read(Print(Cmp(op, part, n, uniq)) + rest) == Some((Cmp(op, part, n, uniq), rest))
  {
    hide ReadBound, Digits;
    var tail := [OpChar(op)] + BoundText(n, uniq) + rest;
    var whole := Print(Cmp(op, part, n, uniq)) + rest;
    assert whole == "(" + (Print(part) + tail);
    assert whole[1..] == Print(part) + tail;
    assert tail[1..] == BoundText(n, uniq) + rest;
    ReadBoundPrinted(part, op, n, uniq, rest);
  }

  lemma {:induction false} ReadJoined(s: Sig, parts: seq<Sig>, sep: char, rest: string)
    requires s == (if sep == '&' then All(parts) else Any(parts)) && (sep == '&' || sep == '|')
    requires WellFormedSig(s)
    ensures Read(Print(s) + rest) == Some((s, rest))
    decreases s, 0
  {
    var first, others := parts[0], parts[1..];
    var tail := [sep] + PrintParts(others, sep) + ")" + rest;
    assert Print(s) + rest == "(" + (Print(first) + tail);
    assert ("(" + (Print(first) + tail))[1..] == Print(first) + tail;
    ReadPrinted(first, tail);
    forall p | p in others ensures p in parts {}
    ReadPartsPrinted(s, others, sep, rest);
    assert [first] + others == parts;
  }

  lemma {:induction false} ReadPartsPrinted(s: Sig, parts: seq<Sig>, sep: char, rest: string)
    requires (sep == '&' || sep == '|') && parts != []
    requires forall p :: p in parts ==> p < s && WellFormedSig(p)
    ensures ReadParts([sep] + PrintParts(parts, sep) + ")" + rest, sep) == Some((parts, rest))
    decreases s, 0, |parts|
  {
    var first, others := parts[0], parts[1..];
    var tail := Rest(others, sep, rest);
    TailIn(parts);
    assert tail != [] && (tail[0] == ')' || tail[0] == sep);
    ReadPrinted(first, tail);
    if others == [] {
      ClosedParts(sep, rest);
    } else {
      ReadPartsPrinted(s, others, sep, rest);
    }
    PartsStep(sep, first, others, tail, rest);
    JoinedSplit(parts, sep, rest);
    assert [first] + others == parts;
  }

  // What follows a part inside a group.
  function Rest(others: seq<Sig>, sep: char, rest: string): string {
    if others == [] then ")" + rest else [sep] + PrintParts(others, sep) + ")" + rest
  }

  lemma {:induction false} ClosedParts(sep: char, rest: string)
    ensures ReadParts(Rest([], sep, rest), sep) == Some(([], rest))
  {
    assert (")" + rest)[1..] == rest;
  }

  lemma {:induction false} JoinedSplit(parts: seq<Sig>, sep: char, rest: string)
    requires parts != []
    ensures [sep] + PrintParts(parts, sep) + ")" + rest == [sep] + (Print(parts[0]) + Rest(parts[1..], sep, rest))
  {
    var p, q := Print(parts[0]), PrintParts(parts[1..], sep);
    if |parts| > 1 {
      assert PrintParts(parts, sep) == p + [sep] + q;
      Reassociate([sep], p, [sep], q, ")", rest);
    } else {
      assert PrintParts(parts, sep) == p;
      Reassociate([sep], p, [], [], ")", rest);
      assert p + [] + [] == p;
    }
  }

  lemma {:induction false} Reassociate(a: string, p: string, b: string, q: string, c: string, rest: string)
    ensures a + (p + b + q) + c + rest == a + (p + (b + q + c + rest))
  {
    assert p + b + q + c + rest == p + (b + q + c + rest);
    assert a + (p + b + q) + c + rest == a + (p + b + q + c + rest);
  }

  lemma {:induction false} PartsStep(sep: char, first: Sig, others: seq<Sig>, tail: string, rest: string)
    requires sep == '&' || sep == '|'
    requires Read(Print(first) + tail) == Some((first, tail)) && ReadParts(tail, sep) == Some((others, rest))
    ensures ReadParts([sep] + (Print(first) + tail), sep) == Some(([first] + others, rest))
  {
    assert ([sep] + (Print(first) + tail))[1..] == Print(first) + tail;
  }

  // Different expressions print differently.
  lemma {:induction false} PrintInjective(a: Sig, b: Sig)
    requires WellFormedSig(a) && WellFormedSig(b) && Print(a) == Print(b)
    ensures a == b
  {
    ReadPrinted(a, []);
    ReadPrinted(b, []);
    assert Print(a) + [] == Print(b) + [];
  }
}
