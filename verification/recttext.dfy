/** The string primitives the two rectangle parsers are built from: the
    single-character `find_first_of` / `find_last_of`, `substr` with its
    clamped length, `size_t` subtraction, and the string utilities that split
    on a separator and trim white space. The text layout both rectangle
    versions print, `[a, b](c, d)`, and the delimiter search both parsers do
    are defined here once. */
module RectText {

  datatype Option<T> = None | Some(value: T)

  /** One more than the largest `size_t`, the modulus of its subtraction. */
  const SIZE_MODULUS: nat := 0x1_0000_0000_0000_0000

  /** `find_first_of(c)`: the index of the first occurrence, or `npos`. */
  function FindFirst(s: string, c: char): (r: Option<nat>)
    ensures r.Some? ==> r.value < |s| && s[r.value] == c
  {
    FindFrom(s, c, 0)
  }

  /** The first occurrence at or after position `i`. */
  function FindFrom(s: string, c: char, i: nat): (r: Option<nat>)
    requires i <= |s|
    ensures r.Some? ==> i <= r.value < |s| && s[r.value] == c
    decreases |s| - i
  {
    if i == |s| then None
    else if s[i] == c then Some(i)
    else FindFrom(s, c, i + 1)
  }

  /** The search from `i` skips no occurrence, and finds nothing exactly
      when the rest of the text holds none. */
  lemma {:induction false} FindFromIsFirst(s: string, c: char, i: nat)
    requires i <= |s|
    ensures FindFrom(s, c, i).Some? ==> forall k :: i <= k < FindFrom(s, c, i).value ==> s[k] != c
    ensures FindFrom(s, c, i).None? <==> forall k :: i <= k < |s| ==> s[k] != c
    decreases |s| - i
  {
    if i < |s| && s[i] != c {
      FindFromIsFirst(s, c, i + 1);
    }
  }

  /** `find_first_of` finds the first occurrence, and `npos` means absent. */
  lemma FindFirstIsFirst(s: string, c: char)
    ensures FindFirst(s, c).Some? ==> forall k :: 0 <= k < FindFirst(s, c).value ==> s[k] != c
    ensures FindFirst(s, c).None? <==> c !in s
  {
    FindFromIsFirst(s, c, 0);
  }

  /** `find_last_of(c)`: the index of the last occurrence, or `npos`. */
  function FindLast(s: string, c: char): (r: Option<nat>)
    ensures r.Some? ==> r.value < |s| && s[r.value] == c
  {
    FindBefore(s, c, |s|)
  }

  /** The last occurrence before position `n`. */
  function FindBefore(s: string, c: char, n: nat): (r: Option<nat>)
    requires n <= |s|
    ensures r.Some? ==> r.value < n && s[r.value] == c
  {
    if n == 0 then None
    else if s[n - 1] == c then Some(n - 1)
    else FindBefore(s, c, n - 1)
  }

  /** The search before `n` skips no occurrence, and finds nothing exactly
      when the text before `n` holds none. */
  lemma {:induction false} FindBeforeIsLast(s: string, c: char, n: nat)
    requires n <= |s|
    ensures FindBefore(s, c, n).Some? ==> forall k :: FindBefore(s, c, n).value < k < n ==> s[k] != c
    ensures FindBefore(s, c, n).None? <==> forall k :: 0 <= k < n ==> s[k] != c
  {
    if n > 0 && s[n - 1] != c {
      FindBeforeIsLast(s, c, n - 1);
    }
  }

  /** `find_last_of` finds the last occurrence, and `npos` means absent. */
  lemma FindLastIsLast(s: string, c: char)
    ensures FindLast(s, c).Some? ==> forall k :: FindLast(s, c).value < k < |s| ==> s[k] != c
    ensures FindLast(s, c).None? <==> c !in s
  {
    FindBeforeIsLast(s, c, |s|);
  }

  /** A character absent from `p` is first found where `q` starts with it. */
  lemma FindFirstAfter(p: string, q: string, c: char)
    requires c !in p && |q| > 0 && q[0] == c
    ensures FindFirst(p + q, c) == Some(|p|)
  {
    var s := p + q;
    FindFirstIsFirst(s, c);
    assert s[|p|] == c;
    assert forall i :: 0 <= i < |p| ==> s[i] == p[i];
  }

  /** `a - b` on `size_t`: wraps around modulo 2^64. */
  function SizeDiff(a: nat, b: nat): (r: nat)
    ensures r < SIZE_MODULUS
    ensures b <= a < b + SIZE_MODULUS ==> r == a - b
    ensures a < b <= a + SIZE_MODULUS ==> r == SIZE_MODULUS - (b - a)
  {
    (a - b) % SIZE_MODULUS
  }

  /** `substr(pos, count)`: at most `count` characters from `pos`; a count
      running past the end is clamped to the end of the string. The library
      throws when `pos` exceeds the length; every caller here passes a
      position at most the length. */
  function Substr(s: string, pos: nat, count: nat): (r: string)
    requires pos <= |s|
    ensures pos + count <= |s| ==> |r| == count
    ensures pos + count > |s| ==> |r| == |s| - pos
  {
    if pos + count <= |s| then s[pos..pos + count] else s[pos..]
  }

  /** What `substr` returns is the text from `pos` on, character for
      character. */
  lemma SubstrContents(s: string, pos: nat, count: nat)
    requires pos <= |s|
    ensures forall k :: 0 <= k < |Substr(s, pos, count)| ==> Substr(s, pos, count)[k] == s[pos + k]
  {
  }

  /** `StringUtils::Tokenize(s, sep)`: the pieces between separators, empty
      pieces included, so that there is always one more piece than there
      are separators. */
  function Tokenize(s: string, sep: char): (r: seq<string>)
    ensures |r| >= 1
    decreases |s|
  {
    match FindFirst(s, sep)
    case None => [s]
    case Some(i) => [s[..i]] + Tokenize(s[i + 1..], sep)
  }

  /** The inverse of `Tokenize`: the pieces glued back with the separator. */
  function Join(parts: seq<string>, sep: char): string
    requires |parts| >= 1
  {
    if |parts| == 1 then parts[0] else parts[0] + [sep] + Join(parts[1..], sep)
  }

  /** No piece of the split holds the separator. */
  lemma {:induction false} TokenizePiecesClean(s: string, sep: char)
    ensures forall i :: 0 <= i < |Tokenize(s, sep)| ==> sep !in Tokenize(s, sep)[i]
    decreases |s|
  {
    FindFirstIsFirst(s, sep);
    match FindFirst(s, sep)
    case None =>
    case Some(i) =>
      var head, tail := s[..i], s[i + 1..];
      TokenizePiecesClean(tail, sep);
      assert Tokenize(s, sep) == [head] + Tokenize(tail, sep);
      assert sep !in head by {
        forall k | 0 <= k < i ensures head[k] != sep { }
      }
  }

  /** Glued back with the separator, the pieces give the text that was split. */
  lemma {:induction false} JoinTokenize(s: string, sep: char)
    ensures Join(Tokenize(s, sep), sep) == s
    decreases |s|
  {
    match FindFirst(s, sep)
    case None =>
    case Some(i) =>
      var head, tail := s[..i], s[i + 1..];
      var rest := Tokenize(tail, sep);
      JoinTokenize(tail, sep);
      assert Tokenize(s, sep) == [head] + rest;
      JoinCons(head, rest, sep);
      SplitAt(s, i);
  }

  /** Gluing a piece in front of at least one more. */
  lemma JoinCons(head: string, rest: seq<string>, sep: char)
    requires |rest| >= 1
    ensures Join([head] + rest, sep) == head + [sep] + Join(rest, sep)
  {
    assert ([head] + rest)[1..] == rest;
  }

  /** A text is what lies before position `i`, the character there, and
      what follows. */
  lemma SplitAt(s: string, i: nat)
    requires i < |s|
    ensures s == s[..i] + [s[i]] + s[i + 1..]
  {
  }

  /** A separator-free first piece is split off whole. */
  lemma TokenizeCons(x: string, rest: string, sep: char)
    requires sep !in x
    ensures Tokenize(x + [sep] + rest, sep) == [x] + Tokenize(rest, sep)
  {
    var s := x + [sep] + rest;
    assert s == x + ([sep] + rest);
    FindFirstAfter(x, [sep] + rest, sep);
    assert s[..|x|] == x;
    assert s[|x| + 1..] == rest;
    assert Tokenize(s, sep) == [s[..|x|]] + Tokenize(s[|x| + 1..], sep);
  }

  /** A separator-free text is one piece. */
  lemma TokenizeNone(x: string, sep: char)
    requires sep !in x
    ensures Tokenize(x, sep) == [x]
  {
  }

  /** Splitting the join of separator-free pieces gives back the pieces. */
  lemma {:induction false} TokenizeJoin(parts: seq<string>, sep: char)
    requires |parts| >= 1
    requires forall i :: 0 <= i < |parts| ==> sep !in parts[i]
    ensures Tokenize(Join(parts, sep), sep) == parts
    decreases |parts|
  {
    if |parts| == 1 {
      assert sep !in parts[0];
    } else {
      assert sep !in parts[0];
      TokenizeCons(parts[0], Join(parts[1..], sep), sep);
      TokenizeJoin(parts[1..], sep);
      assert parts == [parts[0]] + parts[1..];
    }
  }

  /** The characters `StringUtils::Trim` removes. */
  predicate IsSpace(c: char)
  {
    c == ' ' || c == '\t' || c == '\n' || c == '\r'
  }

  /** Leading white space removed. */
  function TrimStart(s: string): (r: string)
    ensures |r| <= |s|
    ensures |r| == 0 || !IsSpace(r[0])
  {
    if |s| > 0 && IsSpace(s[0]) then TrimStart(s[1..]) else s
  }

  /** What `TrimStart` keeps is a suffix of the text, and all it drops is
      white space. */
  lemma {:induction false} TrimStartDrops(s: string)
    ensures TrimStart(s) == s[|s| - |TrimStart(s)|..]
    ensures forall i :: 0 <= i < |s| - |TrimStart(s)| ==> IsSpace(s[i])
    decreases |s|
  {
    if |s| > 0 && IsSpace(s[0]) {
      TrimStartDrops(s[1..]);
      assert s[1..][|s| - 1 - |TrimStart(s)|..] == s[|s| - |TrimStart(s)|..];
      forall i | 1 <= i < |s| - |TrimStart(s)|
        ensures IsSpace(s[i])
      {
        assert s[i] == s[1..][i - 1];
      }
    }
  }

  /** Trailing white space removed. */
  function TrimEnd(s: string): (r: string)
    ensures |r| <= |s|
    ensures |r| == 0 || !IsSpace(r[|r| - 1])
  {
    if |s| > 0 && IsSpace(s[|s| - 1]) then TrimEnd(s[..|s| - 1]) else s
  }

  /** What `TrimEnd` keeps is a prefix of the text, and all it drops is
      white space. */
  lemma {:induction false} TrimEndDrops(s: string)
    ensures TrimEnd(s) == s[..|TrimEnd(s)|]
    ensures forall i :: |TrimEnd(s)| <= i < |s| ==> IsSpace(s[i])
    decreases |s|
  {
    if |s| > 0 && IsSpace(s[|s| - 1]) {
      TrimEndDrops(s[..|s| - 1]);
      assert s[..|s| - 1][..|TrimEnd(s)|] == s[..|TrimEnd(s)|];
      forall i | |TrimEnd(s)| <= i < |s| - 1
        ensures IsSpace(s[i])
      {
        assert s[i] == s[..|s| - 1][i];
      }
    }
  }

  /** `StringUtils::TrimSelf`: white space removed at both ends. */
  function Trim(s: string): (r: string)
    ensures |r| <= |s|
  {
    TrimEnd(TrimStart(s))
  }

  /** The trimmed text has white space at neither end, a text without white
      space at either end is its own trim, and trimming twice is trimming
      once. */
  lemma TrimFacts(s: string)
    ensures |Trim(s)| == 0 || (!IsSpace(Trim(s)[0]) && !IsSpace(Trim(s)[|Trim(s)| - 1]))
    ensures (|s| == 0 || (!IsSpace(s[0]) && !IsSpace(s[|s| - 1]))) ==> Trim(s) == s
    ensures Trim(Trim(s)) == Trim(s)
  {
    var t := TrimStart(s);
    TrimEndDrops(t);
    var r := Trim(s);
    assert |r| == 0 || !IsSpace(r[0]) by {
      if |r| > 0 {
        assert r[0] == t[0];
      }
    }
    assert Trim(r) == r by {
      assert TrimStart(r) == r;
    }
  }

  /** Leading white space never survives the trim. */
  lemma {:induction false} TrimLeadingSpace(c: char, s: string)
    requires IsSpace(c)
    ensures Trim([c] + s) == Trim(s)
  {
    assert ([c] + s)[1..] == s;
  }

  /** A scalar's text that cannot be mistaken for part of the bracket form. */
  predicate Clean(s: string)
  {
    '[' !in s && ']' !in s && '(' !in s && ')' !in s && ',' !in s
  }

  /** The layout both rectangle versions print, `[a, b](c, d)`: two
      delimited groups of two comma-separated texts. */
  function Bracketed(a: string, b: string, c: string, d: string): string
  {
    Group('[', a, b, ']') + Group('(', c, d, ')')
  }

  function Group(open: char, x: string, y: string, close: char): string
  {
    [open] + (x + ", " + y) + [close]
  }

  /** Where the four delimiters of the bracket form were found: the first
      `[`, the first `]`, the first `(` and the last `)`. */
  datatype Delimiters = Delimiters(ab: nat, ae: nat, bb: nat, be: nat)

  /** The delimiter search shared by both parsers; `None` means one of the
      four delimiters is missing. */
  function FindDelimiters(s: string): (r: Option<Delimiters>)
    ensures r.Some? ==> r.value.ab < |s| && r.value.bb < |s|
  {
    var ab, ae, bb, be := FindFirst(s, '['), FindFirst(s, ']'), FindFirst(s, '('), FindLast(s, ')');
    if ab.None? || ae.None? || bb.None? || be.None? then None
    else Some(Delimiters(ab.value, ae.value, bb.value, be.value))
  }

  /** A text is missing a delimiter exactly when one of the four is absent. */
  predicate Missing(s: string)
  {
    '[' !in s || ']' !in s || '(' !in s || ')' !in s
  }

  /** The search fails exactly when a delimiter is missing; otherwise each
      position holds its delimiter, the first three are the first
      occurrences and the closing `)` is the last. */
  lemma FindDelimitersFound(s: string)
    ensures FindDelimiters(s).None? <==> Missing(s)
    ensures FindDelimiters(s).Some? ==>
      var p := FindDelimiters(s).value;
      && p.ae < |s| && p.be < |s|
      && s[p.ab] == '[' && s[p.ae] == ']' && s[p.bb] == '(' && s[p.be] == ')'
      && (forall k :: 0 <= k < p.ab ==> s[k] != '[')
      && (forall k :: 0 <= k < p.ae ==> s[k] != ']')
      && (forall k :: 0 <= k < p.bb ==> s[k] != '(')
      && (forall k :: p.be < k < |s| ==> s[k] != ')')
  {
    FindFirstIsFirst(s, '[');
    FindFirstIsFirst(s, ']');
    FindFirstIsFirst(s, '(');
    FindLastIsLast(s, ')');
  }

  /** The delimiter search and splitting shared by both parsers: with all
      four delimiters found, the two groups are cut out with `substr`, split
      on commas, and each piece is trimmed. */
  function Groups(s: string, keepCloser: bool): Option<(seq<string>, seq<string>)>
  {
    match FindDelimiters(s)
    case None => None
    case Some(p) => Some(GroupsAt(s, p, keepCloser))
  }

  /** The two groups cut out at known delimiter positions. */
  function GroupsAt(s: string, p: Delimiters, keepCloser: bool): (seq<string>, seq<string>)
    requires p.ab < |s| && p.bb < |s|
  {
    var texts := GroupTextsAt(s, p, keepCloser);
    (TrimAll(Tokenize(texts.0, ',')), TrimAll(Tokenize(texts.1, ',')))
  }

  /** The two texts `substr` cuts out after each opening delimiter: up to
      the closing one, or one character further when the closing delimiter
      is kept. */
  function GroupTextsAt(s: string, p: Delimiters, keepCloser: bool): (string, string)
    requires p.ab < |s| && p.bb < |s|
  {
    (Substr(s, p.ab + 1, if keepCloser then SizeDiff(p.ae, p.ab) else SizeDiff(p.ae, p.ab + 1)),
     Substr(s, p.bb + 1, if keepCloser then SizeDiff(p.be, p.bb) else SizeDiff(p.be, p.bb + 1)))
  }

  /** Both parsers give up exactly when a delimiter is missing. */
  lemma GroupsMissing(s: string, keepCloser: bool)
    ensures Groups(s, keepCloser).None? <==> Missing(s)
  {
    FindDelimitersFound(s);
  }

  /** Every piece trimmed in place, as the parsers' `for` loops do. */
  function TrimAll(pieces: seq<string>): seq<string>
  {
    seq(|pieces|, i requires 0 <= i < |pieces| => Trim(pieces[i]))
  }

  /** With the delimiters found, the groups are those cut at their
      positions. */
  lemma GroupsFound(s: string, p: Delimiters, keepCloser: bool)
    requires FindDelimiters(s) == Some(p)
    ensures p.ab < |s| && p.bb < |s|
    ensures Groups(s, keepCloser) == Some(GroupsAt(s, p, keepCloser))
  {
  }

  /** Where the printed form `[a, b](c, d)` puts its four delimiters. */
  function Layout(a: string, b: string, c: string, d: string): (p: Delimiters)
    ensures p.ab < p.ae < p.bb < p.be
  {
    Delimiters(0, |a| + |b| + 3, |a| + |b| + 4, |a| + |b| + |c| + |d| + 7)
  }

  /** Where the four delimiters sit in the printed form. */
  lemma BracketedDelimiters(a: string, b: string, c: string, d: string)
    requires Clean(a) && Clean(b) && Clean(c) && Clean(d)
    ensures FindDelimiters(Bracketed(a, b, c, d)) == Some(Layout(a, b, c, d))
  {
    FirstOpener(a, b, c, d);
    FirstCloser(a, b, c, d);
    SecondOpener(a, b, c, d);
    SecondCloser(a, b, c, d);
  }

  lemma FirstOpener(a: string, b: string, c: string, d: string)
    ensures FindFirst(Bracketed(a, b, c, d), '[') == Some(0)
  {
    assert Bracketed(a, b, c, d)[0] == '[';
  }

  lemma FirstCloser(a: string, b: string, c: string, d: string)
    requires Clean(a) && Clean(b)
    ensures FindFirst(Bracketed(a, b, c, d), ']') == Some(|a| + |b| + 3)
  {
    var first := a + ", " + b;
    var g2 := Group('(', c, d, ')');
    assert Bracketed(a, b, c, d) == (['['] + first) + ([']'] + g2);
    FindFirstAfter(['['] + first, [']'] + g2, ']');
  }

  lemma SecondOpener(a: string, b: string, c: string, d: string)
    requires Clean(a) && Clean(b)
    ensures FindFirst(Bracketed(a, b, c, d), '(') == Some(|a| + |b| + 4)
  {
    FindFirstAfter(Group('[', a, b, ']'), Group('(', c, d, ')'), '(');
  }

  lemma SecondCloser(a: string, b: string, c: string, d: string)
    ensures FindLast(Bracketed(a, b, c, d), ')') == Some(|a| + |b| + |c| + |d| + 7)
  {
    var s := Bracketed(a, b, c, d);
    assert s[|s| - 1] == ')';
  }

  /** What lies between the delimiters of the printed form. */
  lemma {:induction false} BracketedContents(a: string, b: string, c: string, d: string)
    ensures var s := Bracketed(a, b, c, d);
      var ae := |a| + |b| + 3;
      && |s| == ae + |c| + |d| + 5
      && s[1..ae] == a + ", " + b
      && s[1..ae + 1] == a + ", " + b + "]"
      && s[ae + 2..|s| - 1] == c + ", " + d
      && s[ae + 2..] == c + ", " + d + ")"
  {
    var first, second := a + ", " + b, c + ", " + d;
    var g1, g2 := Group('[', a, b, ']'), Group('(', c, d, ')');
    var s := g1 + g2;
    assert |first| == |a| + |b| + 2;
    assert s[1..|first| + 2] == g1[1..] == first + "]";
    assert s[1..|first| + 1] == first;
    assert s[|g1| + 1..] == g2[1..] == second + ")";
    assert s[|g1| + 1..|s| - 1] == second;
  }

  /** The text is short enough for `size_t` indices, as every `std::string` is. */
  predicate Fits(s: string)
  {
    |s| < SIZE_MODULUS
  }

  /** Cut with the intended lengths, the printed form splits back into the
      four trimmed scalar texts. */
  lemma GroupsOfBracketed(a: string, b: string, c: string, d: string)
    requires Clean(a) && Clean(b) && Clean(c) && Clean(d)
    requires Fits(Bracketed(a, b, c, d))
    ensures Groups(Bracketed(a, b, c, d), false) == Some(([Trim(a), Trim(b)], [Trim(c), Trim(d)]))
  {
    BracketedDelimiters(a, b, c, d);
    GroupsFound(Bracketed(a, b, c, d), Layout(a, b, c, d), false);
    CutGroups(a, b, c, d);
  }

  /** Cut with the library's lengths, each group's last piece keeps the
      closing delimiter. */
  lemma GroupsOfBracketedAsWritten(a: string, b: string, c: string, d: string)
    requires Clean(a) && Clean(b) && Clean(c) && Clean(d)
    requires Fits(Bracketed(a, b, c, d))
    ensures Groups(Bracketed(a, b, c, d), true) == Some(([Trim(a), Trim(b + "]")], [Trim(c), Trim(d + ")")]))
  {
    BracketedDelimiters(a, b, c, d);
    GroupsFound(Bracketed(a, b, c, d), Layout(a, b, c, d), true);
    CutGroupsAsWritten(a, b, c, d);
  }

  lemma CutGroups(a: string, b: string, c: string, d: string)
    requires Clean(a) && Clean(b) && Clean(c) && Clean(d)
    requires Fits(Bracketed(a, b, c, d))
    ensures Layout(a, b, c, d).bb < |Bracketed(a, b, c, d)|
    ensures GroupsAt(Bracketed(a, b, c, d), Layout(a, b, c, d), false) == ([Trim(a), Trim(b)], [Trim(c), Trim(d)])
  {
    GroupTexts(a, b, c, d);
    SplitPair(a, b);
    SplitPair(c, d);
  }

  lemma CutGroupsAsWritten(a: string, b: string, c: string, d: string)
    requires Clean(a) && Clean(b) && Clean(c) && Clean(d)
    requires Fits(Bracketed(a, b, c, d))
    ensures Layout(a, b, c, d).bb < |Bracketed(a, b, c, d)|
    ensures GroupsAt(Bracketed(a, b, c, d), Layout(a, b, c, d), true) == ([Trim(a), Trim(b + "]")], [Trim(c), Trim(d + ")")])
  {
    GroupTextsAsWritten(a, b, c, d);
    SplitPair(a, b + "]");
    SplitPair(c, d + ")");
  }

  /** The texts `substr` cuts out of the printed form with the intended
      lengths: exactly the contents of each group. */
  lemma GroupTexts(a: string, b: string, c: string, d: string)
    requires Fits(Bracketed(a, b, c, d))
    ensures Layout(a, b, c, d).bb < |Bracketed(a, b, c, d)|
    ensures GroupTextsAt(Bracketed(a, b, c, d), Layout(a, b, c, d), false) == (a + ", " + b, c + ", " + d)
  {
    BracketedContents(a, b, c, d);
  }

  /** The texts `substr` cuts out with the library's lengths: each group's
      contents followed by its closing delimiter. */
  lemma GroupTextsAsWritten(a: string, b: string, c: string, d: string)
    requires Fits(Bracketed(a, b, c, d))
    ensures Layout(a, b, c, d).bb < |Bracketed(a, b, c, d)|
    ensures GroupTextsAt(Bracketed(a, b, c, d), Layout(a, b, c, d), true) == (a + ", " + (b + "]"), c + ", " + (d + ")"))
  {
    BracketedContents(a, b, c, d);
    var s := Bracketed(a, b, c, d);
    assert s[|a| + |b| + 5..|a| + |b| + |c| + |d| + 8] == s[|a| + |b| + 5..];
    assert a + ", " + b + "]" == a + ", " + (b + "]");
    assert c + ", " + d + ")" == c + ", " + (d + ")");
  }

  /** `x, y` with comma-free `x` and `y` splits and trims to the two texts. */
  lemma {:induction false} SplitPair(x: string, y: string)
    requires ',' !in x && ',' !in y
    ensures TrimAll(Tokenize(x + ", " + y, ',')) == [Trim(x), Trim(y)]
  {
    var z := [' '] + y;
    assert x + ", " + y == x + [','] + z;
    TokenizeCons(x, z, ',');
    assert ',' !in z;
    TokenizeNone(z, ',');
    var pieces := Tokenize(x + ", " + y, ',');
    assert pieces == [x, z];
    TrimLeadingSpace(' ', y);
    assert TrimAll(pieces) == [Trim(x), Trim(z)];
  }
}
