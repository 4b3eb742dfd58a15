/**
 * Text handling of the server: `clean_text` (regular-expression whitespace
 * collapsing, control-character removal, `str.strip`), `tokenize` (lower-case
 * `\w+` runs) and `" ".join`.
 */
module Text {
  import opened Seqs

  /** Python's `str.isspace()` set: what `\s` matches in a str pattern and what `str.strip()` removes. */
  predicate IsSpace(c: char) {
    var n := c as int;
    (0x09 <= n <= 0x0d) || (0x1c <= n <= 0x20) || n == 0x85 || n == 0xa0 || n == 0x1680
    || (0x2000 <= n <= 0x200a) || n == 0x2028 || n == 0x2029 || n == 0x202f || n == 0x205f
    || n == 0x3000
  }

  /** The class `[\x00-\x1f\x7f-\x9f]` removed by `clean_text`. */
  predicate IsControl(c: char) {
    var n := c as int;
    n <= 0x1f || (0x7f <= n <= 0x9f)
  }

  /** A character that carries content: neither whitespace nor a control character. */
  predicate IsContent(c: char) {
    !IsSpace(c) && !IsControl(c)
  }

  /** The content characters of `s`, in order: what cleaning must never lose or invent. */
  function Content(s: string): string {
    if s == [] then [] else (if IsContent(s[0]) then [s[0]] else []) + Content(s[1..])
  }

  lemma {:induction false} ContentAppend(a: string, b: string)
    ensures Content(a + b) == Content(a) + Content(b)
  {
    if a == [] {
      assert a + b == b;
    } else {
      var head := if IsContent(a[0]) then [a[0]] else [];
      assert (a + b)[0] == a[0] && (a + b)[1..] == a[1..] + b;
      ContentAppend(a[1..], b);
      calc {
        Content(a + b);
        head + Content(a[1..] + b);
        head + (Content(a[1..]) + Content(b));
        (head + Content(a[1..])) + Content(b);
        Content(a) + Content(b);
      }
    }
  }

  /** The number of whitespace characters `s` starts with. */
  function LeadingSpace(s: string): (n: nat)
    ensures n <= |s|
    ensures forall k :: 0 <= k < n ==> IsSpace(s[k])
    ensures n < |s| ==> !IsSpace(s[n])
  {
    if s != [] && IsSpace(s[0]) then 1 + LeadingSpace(s[1..]) else 0
  }

  /** The number of whitespace characters `s` ends with. */
  function TrailingSpace(s: string): (n: nat)
    ensures n <= |s|
    ensures forall k :: |s| - n <= k < |s| ==> IsSpace(s[k])
    ensures n < |s| ==> !IsSpace(s[|s| - n - 1])
  {
    if s != [] && IsSpace(s[|s| - 1]) then 1 + TrailingSpace(s[..|s| - 1]) else 0
  }

  /** `str.lstrip()`: drops exactly the leading whitespace. */
  function LStrip(s: string): (r: string)
    ensures r == [] || !IsSpace(r[0])
  {
    s[LeadingSpace(s)..]
  }

  /**
   * `str.strip()`: the slice of `s` between its leading and its trailing
   * whitespace; it neither starts nor ends with whitespace, and it is empty
   * exactly when `s` is all whitespace.
   */
  function Strip(s: string): (r: string)
    ensures var i := LeadingSpace(s);
      && i + |r| <= |s| && r == s[i..i + |r|]
      && (forall k :: 0 <= k < i ==> IsSpace(s[k]))
      && (forall k :: i + |r| <= k < |s| ==> IsSpace(s[k]))
    ensures r == [] || (!IsSpace(r[0]) && !IsSpace(r[|r| - 1]))
    ensures r == [] <==> forall k :: 0 <= k < |s| ==> IsSpace(s[k])
  {
    var i := LeadingSpace(s);
    if i == |s| then []
    else
      var j := |s| - TrailingSpace(s);
      assert i < j;
      s[i..j]
  }

  /** Whitespace carries no content. */
  lemma {:induction false} ContentOfSpace(t: string)
    requires forall k :: 0 <= k < |t| ==> IsSpace(t[k])
    ensures Content(t) == []
  {
    if t != [] {
      assert forall k :: 0 <= k < |t[1..]| ==> t[1..][k] == t[k + 1];
      ContentOfSpace(t[1..]);
    }
  }

  /** Whitespace around a string adds no content. */
  lemma ContentOfPadded(pre: string, mid: string, post: string)
    requires forall k :: 0 <= k < |pre| ==> IsSpace(pre[k])
    requires forall k :: 0 <= k < |post| ==> IsSpace(post[k])
    ensures Content(pre + mid + post) == Content(mid)
  {
    ContentOfSpace(pre);
    ContentOfSpace(post);
    ContentAppend(pre, mid);
    ContentAppend(pre + mid, post);
    calc {
      Content(pre + mid + post);
      Content(pre + mid) + Content(post);
      Content(pre + mid);
      Content(pre) + Content(mid);
      Content(mid);
    }
  }

  /** `lstrip` loses no content. */
  lemma LStripKeepsContent(s: string)
    ensures Content(LStrip(s)) == Content(s)
  {
    var i := LeadingSpace(s);
    var pre := s[..i];
    assert forall k :: 0 <= k < |pre| ==> pre[k] == s[k];
    assert s == pre + LStrip(s) + [];
    ContentOfPadded(pre, LStrip(s), []);
  }

  /** `strip` loses no content. */
  lemma StripKeepsContent(s: string)
    ensures Content(Strip(s)) == Content(s)
  {
    var i, r := LeadingSpace(s), Strip(s);
    var pre, post := s[..i], s[i + |r|..];
    assert forall k :: 0 <= k < |pre| ==> pre[k] == s[k];
    assert forall k :: 0 <= k < |post| ==> post[k] == s[i + |r| + k];
    assert s == pre + r + post;
    ContentOfPadded(pre, r, post);
  }

  /** `re.sub(r'\s+', ' ', s)`: every maximal run of whitespace becomes one blank. */
  function CollapseSpace(s: string): (r: string)
    ensures forall i :: 0 <= i < |r| && IsSpace(r[i]) ==> r[i] == ' '
    ensures forall i, j :: 0 <= i && j == i + 1 && j < |r| ==> !(r[i] == ' ' && r[j] == ' ')
    ensures |r| == 0 <==> |s| == 0
    ensures |r| > 0 ==> (IsSpace(r[0]) <==> IsSpace(s[0]))
    ensures Content(r) == Content(s)
    decreases |s|
  {
    if s == [] then []
    else if IsSpace(s[0]) then LStripKeepsContent(s[1..]); [' '] + CollapseSpace(LStrip(s[1..]))
    else [s[0]] + CollapseSpace(s[1..])
  }

  /** `re.sub(r'[\x00-\x1f\x7f-\x9f]', '', s)`. */
  function RemoveControl(s: string): (r: string)
    ensures forall c :: c in r ==> c in s && !IsControl(c)
    ensures Content(r) == Content(s)
  {
    if s == [] then []
    else if IsControl(s[0]) then RemoveControl(s[1..])
    else [s[0]] + RemoveControl(s[1..])
  }

  /**
   * What `clean_text` guarantees of its result: no control character, no
   * whitespace other than the blank, and no whitespace at either end.
   */
  ghost predicate IsClean(s: string) {
    && (forall i :: 0 <= i < |s| ==> !IsControl(s[i]))
    && (forall i :: 0 <= i < |s| && IsSpace(s[i]) ==> s[i] == ' ')
    && (s == [] || (!IsSpace(s[0]) && !IsSpace(s[|s| - 1])))
  }

  /** Characters taken from a control-free string whose only whitespace is the blank keep both properties. */
  lemma BlanksSurvive(collapsed: string, printable: string, r: string)
    requires forall i :: 0 <= i < |collapsed| && IsSpace(collapsed[i]) ==> collapsed[i] == ' '
    requires forall c :: c in printable ==> c in collapsed && !IsControl(c)
    requires forall c :: c in r ==> c in printable
    ensures forall i :: 0 <= i < |r| ==> !IsControl(r[i]) && (IsSpace(r[i]) ==> r[i] == ' ')
  {
    forall i | 0 <= i < |r| ensures !IsControl(r[i]) && (IsSpace(r[i]) ==> r[i] == ' ') {
      assert r[i] in printable;
      var j :| 0 <= j < |collapsed| && collapsed[j] == r[i];
    }
  }

  /** `clean_text`: collapse whitespace, remove control characters, strip. */
  function CleanText(s: string): (r: string)
    ensures IsClean(r)
    ensures Content(r) == Content(s)
  {
    var collapsed := CollapseSpace(s);
    var printable := RemoveControl(collapsed);
    var r := Strip(printable);
    StripKeepsContent(printable);
    assert forall c :: c in r ==> c in printable;
    BlanksSurvive(collapsed, printable, r);
    r
  }

  /**
   * The character classes `tokenize` relies on: membership in `\w` and
   * `str.lower` for one character. Both are Unicode tables of the Python
   * runtime and are given, not modelled.
   */
  datatype Lexicon = Lexicon(isWord: char -> bool, lower: char -> char)

  /** `text.lower()`, character by character. */
  function Lower(lex: Lexicon, s: string): (r: string)
    ensures |r| == |s|
    ensures forall i :: 0 <= i < |s| ==> r[i] == lex.lower(s[i])
  {
    seq(|s|, i requires 0 <= i < |s| => lex.lower(s[i]))
  }

  /** The length of the run of word characters at the start of `t`. */
  function WordLen(isWord: char -> bool, t: string): (n: nat)
    ensures n <= |t|
    ensures forall i :: 0 <= i < n ==> isWord(t[i])
    ensures n == |t| || !isWord(t[n])
  {
    if t == [] || !isWord(t[0]) then 0 else 1 + WordLen(isWord, t[1..])
  }

  /** All words of a string made only of word characters. */
  ghost predicate IsWord(isWord: char -> bool, w: string) {
    w != [] && forall i :: 0 <= i < |w| ==> isWord(w[i])
  }

  /** `re.findall(r'\b\w+\b', t)`: the maximal runs of word characters, left to right. */
  function Words(isWord: char -> bool, t: string): (ws: seq<string>)
    ensures forall k :: 0 <= k < |ws| ==> IsWord(isWord, ws[k])
    decreases |t|
  {
    if t == [] then []
    else if !isWord(t[0]) then Words(isWord, t[1..])
    else
      var n := WordLen(isWord, t);
      [t[..n]] + Words(isWord, t[n..])
  }

  /** The word characters of `t`, in order. */
  function WordChars(isWord: char -> bool, t: string): string {
    if t == [] then [] else (if isWord(t[0]) then [t[0]] else []) + WordChars(isWord, t[1..])
  }

  lemma {:induction false} WordCharsAppend(isWord: char -> bool, a: string, b: string)
    ensures WordChars(isWord, a + b) == WordChars(isWord, a) + WordChars(isWord, b)
  {
    if a == [] {
      assert a + b == b;
    } else {
      var head := if isWord(a[0]) then [a[0]] else [];
      assert (a + b)[0] == a[0] && (a + b)[1..] == a[1..] + b;
      WordCharsAppend(isWord, a[1..], b);
      calc {
        WordChars(isWord, a + b);
        head + WordChars(isWord, a[1..] + b);
        head + (WordChars(isWord, a[1..]) + WordChars(isWord, b));
        (head + WordChars(isWord, a[1..])) + WordChars(isWord, b);
        WordChars(isWord, a) + WordChars(isWord, b);
      }
    }
  }

  lemma {:induction false} WordCharsOfWord(isWord: char -> bool, w: string)
    requires forall i :: 0 <= i < |w| ==> isWord(w[i])
    ensures WordChars(isWord, w) == w
  {
    if w != [] { WordCharsOfWord(isWord, w[1..]); }
  }

  /** The words, glued back together, are exactly the word characters: nothing lost, nothing added. */
  lemma {:induction false} WordsCoverWordChars(isWord: char -> bool, t: string)
    ensures Concat(Words(isWord, t)) == WordChars(isWord, t)
    decreases |t|
  {
    if t == [] {
    } else if !isWord(t[0]) {
      WordsCoverWordChars(isWord, t[1..]);
    } else {
      var n := WordLen(isWord, t);
      WordsCoverWordChars(isWord, t[n..]);
      assert t == t[..n] + t[n..];
      WordCharsAppend(isWord, t[..n], t[n..]);
      WordCharsOfWord(isWord, t[..n]);
    }
  }

  /** A string of word characters is a single token. */
  lemma {:induction false} WordsOfWord(isWord: char -> bool, w: string)
    requires IsWord(isWord, w)
    ensures Words(isWord, w) == [w]
  {
    assert WordLen(isWord, w) == |w|;
    assert w[..|w|] == w && w[|w|..] == [];
  }

  lemma {:induction false} WordLenStops(isWord: char -> bool, a: string, c: char, b: string)
    requires !isWord(c)
    ensures WordLen(isWord, a + [c] + b) == WordLen(isWord, a)
  {
    if a == [] {
      assert (a + [c] + b)[0] == c;
    } else if isWord(a[0]) {
      assert (a + [c] + b)[1..] == a[1..] + [c] + b;
      WordLenStops(isWord, a[1..], c, b);
    }
  }

  /** Tokens never span a non-word character: splitting at one splits the token list. */
  lemma {:induction false} WordsSplit(isWord: char -> bool, a: string, c: char, b: string)
    requires !isWord(c)
    ensures Words(isWord, a + [c] + b) == Words(isWord, a) + Words(isWord, b)
    decreases |a|
  {
    var t := a + [c] + b;
    if a == [] {
      assert t[0] == c && t[1..] == b;
    } else if !isWord(a[0]) {
      assert t[1..] == a[1..] + [c] + b;
      WordsSplit(isWord, a[1..], c, b);
    } else {
      var n := WordLen(isWord, t);
      WordLenStops(isWord, a, c, b);
      assert n == WordLen(isWord, a) && 1 <= n <= |a|;
      assert t[..n] == a[..n];
      assert t[n..] == a[n..] + [c] + b;
      WordsSplit(isWord, a[n..], c, b);
    }
  }

  /** `tokenize`: lower-case the text, then take its `\w+` runs. */
  function Tokenize(lex: Lexicon, text: string): (tokens: seq<string>)
    ensures forall k :: 0 <= k < |tokens| ==> IsWord(lex.isWord, tokens[k])
    ensures Concat(tokens) == WordChars(lex.isWord, Lower(lex, text))
  {
    WordsCoverWordChars(lex.isWord, Lower(lex, text));
    Words(lex.isWord, Lower(lex, text))
  }

  /** `sep.join(parts)`. */
  function Join(sep: string, parts: seq<string>): (r: string)
    ensures parts == [] ==> r == []
    ensures parts != [] ==> parts[0] <= r
  {
    if parts == [] then []
    else if |parts| == 1 then parts[0]
    else parts[0] + sep + Join(sep, parts[1..])
  }

  /** The joined string holds every part and one separator between neighbours. */
  lemma {:induction false} JoinLength(sep: string, parts: seq<string>)
    requires parts != []
    ensures |Join(sep, parts)| == SumLen(parts) + (|parts| - 1) * |sep|
  {
    if |parts| > 1 {
      JoinLength(sep, parts[1..]);
      assert SumLen(parts) == |parts[0]| + SumLen(parts[1..]);
    } else {
      assert SumLen(parts) == |parts[0]| + SumLen(parts[1..]);
    }
  }

  /*
   * Where the blanks go. `Split` is Python's argument-less `str.split()`;
   * the lemmas below pin `CollapseSpace` and `CleanText` down exactly in its
   * terms: collapsing keeps the words and puts one blank between neighbours
   * (and one at an end that had whitespace), and cleaning is the words with
   * their control characters removed, joined by blanks and stripped.
   */

  /** The length of the run of non-whitespace characters at the start of `s`. */
  function RunLen(s: string): (n: nat)
    ensures n <= |s|
    ensures forall k :: 0 <= k < n ==> !IsSpace(s[k])
    ensures n < |s| ==> IsSpace(s[n])
  {
    if s != [] && !IsSpace(s[0]) then 1 + RunLen(s[1..]) else 0
  }

  /** `str.split()`: the maximal runs of non-whitespace characters, left to right. */
  function Split(s: string): (ws: seq<string>)
    ensures forall k :: 0 <= k < |ws| ==> ws[k] != [] && forall i :: 0 <= i < |ws[k]| ==> !IsSpace(ws[k][i])
    decreases |s|
  {
    if s == [] then []
    else if IsSpace(s[0]) then Split(s[1..])
    else
      var n := RunLen(s);
      [s[..n]] + Split(s[n..])
  }

  /** A string has no words exactly when it is all whitespace. */
  lemma {:induction false} SplitEmpty(s: string)
    ensures Split(s) == [] <==> forall k :: 0 <= k < |s| ==> IsSpace(s[k])
    decreases |s|
  {
    if s != [] && IsSpace(s[0]) {
      SplitEmpty(s[1..]);
      assert forall k :: 1 <= k < |s| ==> s[k] == s[1..][k - 1];
    }
  }

  /** Leading whitespace does not change the words. */
  lemma {:induction false} SplitLStrip(s: string)
    ensures Split(LStrip(s)) == Split(s)
    decreases |s|
  {
    if s != [] && IsSpace(s[0]) {
      SplitLStrip(s[1..]);
      assert LeadingSpace(s) == 1 + LeadingSpace(s[1..]);
      assert LStrip(s) == LStrip(s[1..]);
    }
  }

  /** A word that goes on past the first character. */
  lemma SplitRun(s: string)
    requires |s| >= 2 && !IsSpace(s[0]) && !IsSpace(s[1])
    ensures Split(s[1..]) != []
    ensures Split(s) == [[s[0]] + Split(s[1..])[0]] + Split(s[1..])[1..]
  {
    var u := s[1..];
    var m := RunLen(u);
    assert RunLen(s) == m + 1;
    assert Split(u) == [u[..m]] + Split(u[m..]);
    assert Split(s) == [s[..m + 1]] + Split(s[m + 1..]);
    assert s[..m + 1] == [s[0]] + u[..m];
    assert s[m + 1..] == u[m..];
  }

  /** A word that ends after the first character. */
  lemma SplitSingle(s: string)
    requires s != [] && !IsSpace(s[0]) && (|s| == 1 || IsSpace(s[1]))
    ensures Split(s) == [[s[0]]] + Split(s[1..])
  {
    assert RunLen(s) == 1;
    assert s[..1] == [s[0]];
  }

  /** Joining a part in front of a non-empty list puts one separator after it. */
  lemma JoinFront(w: string, ws: seq<string>)
    requires ws != []
    ensures Join(" ", [w] + ws) == w + [' '] + Join(" ", ws)
  {
    assert ([w] + ws)[1..] == ws;
  }

  /** A character in front of the first part of a join is in front of the join. */
  lemma JoinCons(c: char, w: string, ws: seq<string>)
    ensures Join(" ", [[c] + w] + ws) == [c] + Join(" ", [w] + ws)
  {
    assert ([[c] + w] + ws)[1..] == ws == ([w] + ws)[1..];
  }

  /** The blank `CollapseSpace` keeps in front of the first word. */
  function LeadBlank(s: string): string {
    if s != [] && IsSpace(s[0]) then " " else ""
  }

  /** The blank `CollapseSpace` keeps after the last word. */
  function TrailBlank(s: string): string {
    if Split(s) != [] && IsSpace(s[|s| - 1]) then " " else ""
  }

  lemma Regroup(a: string, b: string, c: string, d: string)
    ensures a + (b + c + d) == a + b + c + d
  {
  }

  lemma Assoc(a: string, b: string, c: string)
    ensures a + (b + c) == a + b + c
  {
  }

  lemma DropEmpty(a: string, e: string)
    requires e == []
    ensures a + e == a && e + a == a
  {
  }

  /** A suffix with words exactly when the whole string has them ends the same way. */
  lemma TrailBlankSuffix(s: string, m: nat)
    requires m <= |s| && (Split(s[m..]) != [] <==> Split(s) != [])
    ensures TrailBlank(s[m..]) == TrailBlank(s)
  {
    if Split(s) != [] {
      assert s[m..][|s| - m - 1] == s[|s| - 1];
    }
  }

  /** The induction step of `CollapseIsJoin` when `s` starts with whitespace. */
  lemma CollapseLeadSpace(s: string)
    requires s != [] && IsSpace(s[0])
    requires var t := LStrip(s[1..]);
      CollapseSpace(t) == LeadBlank(t) + Join(" ", Split(t)) + TrailBlank(t)
    ensures CollapseSpace(s) == LeadBlank(s) + Join(" ", Split(s)) + TrailBlank(s)
  {
    var t := LStrip(s[1..]);
    var j, tb := Join(" ", Split(s)), TrailBlank(s);
    assert Split(t) == Split(s) by { SplitLStrip(s[1..]); }
    assert TrailBlank(t) == tb by {
      var m := 1 + LeadingSpace(s[1..]);
      assert t == s[m..];
      TrailBlankSuffix(s, m);
    }
    assert LeadBlank(t) == [] && LeadBlank(s) == [' '];
    DropEmpty(Join(" ", Split(t)), LeadBlank(t));
    assert CollapseSpace(t) == Join(" ", Split(t)) + TrailBlank(t);
    assert CollapseSpace(s) == [' '] + CollapseSpace(t);
    Assoc([' '], Join(" ", Split(t)), TrailBlank(t));
  }

  /** The induction step of `CollapseIsJoin` when `s` starts with a word of one character. */
  lemma CollapseShortWord(s: string)
    requires |s| >= 2 && !IsSpace(s[0]) && IsSpace(s[1])
    requires var u := s[1..];
      CollapseSpace(u) == LeadBlank(u) + Join(" ", Split(u)) + TrailBlank(u)
    ensures CollapseSpace(s) == LeadBlank(s) + Join(" ", Split(s)) + TrailBlank(s)
  {
    var u := s[1..];
    var j, tb := Join(" ", Split(s)), TrailBlank(s);
    assert Split(s) == [[s[0]]] + Split(u) by { SplitSingle(s); }
    assert LeadBlank(s) == [] && LeadBlank(u) == [' '];
    assert CollapseSpace(s) == [s[0]] + CollapseSpace(u);
    DropEmpty(j, LeadBlank(s));
    if Split(u) == [] {
      assert TrailBlank(u) == [] && tb == [' '] by {
        SplitEmpty(u);
        assert u[|u| - 1] == s[|s| - 1];
      }
      assert j == [s[0]];
      DropEmpty(LeadBlank(u), Join(" ", Split(u)));
      DropEmpty(LeadBlank(u), TrailBlank(u));
      assert CollapseSpace(u) == [' '];
    } else {
      assert TrailBlank(u) == tb by { TrailBlankSuffix(s, 1); }
      JoinFront([s[0]], Split(u));
      Assoc([s[0]], [' '] + Join(" ", Split(u)), tb);
      Assoc([s[0]], [' '], Join(" ", Split(u)));
    }
  }

  /** The induction step of `CollapseIsJoin` when `s` starts with a longer word. */
  lemma CollapseLongWord(s: string)
    requires |s| >= 2 && !IsSpace(s[0]) && !IsSpace(s[1])
    requires var u := s[1..];
      CollapseSpace(u) == LeadBlank(u) + Join(" ", Split(u)) + TrailBlank(u)
    ensures CollapseSpace(s) == LeadBlank(s) + Join(" ", Split(s)) + TrailBlank(s)
  {
    var u := s[1..];
    var j, tb := Join(" ", Split(s)), TrailBlank(s);
    assert Split(u) != [] && j == [s[0]] + Join(" ", Split(u)) by {
      SplitRun(s);
      var ws := Split(u);
      assert ws == [ws[0]] + ws[1..];
      JoinCons(s[0], ws[0], ws[1..]);
    }
    assert TrailBlank(u) == tb by { TrailBlankSuffix(s, 1); }
    assert LeadBlank(s) == [] && LeadBlank(u) == [];
    assert CollapseSpace(s) == [s[0]] + CollapseSpace(u);
    Regroup([s[0]], LeadBlank(u), Join(" ", Split(u)), TrailBlank(u));
    DropEmpty([s[0]], LeadBlank(u));
    DropEmpty(j, LeadBlank(s));
  }

  /**
   * `re.sub(r'\s+', ' ', s)` is `' '.join(s.split())`, with one blank kept
   * in front when `s` starts with whitespace and one behind when it ends
   * with whitespace after a word.
   */
  lemma {:induction false} CollapseIsJoin(s: string)
    ensures CollapseSpace(s) == LeadBlank(s) + Join(" ", Split(s)) + TrailBlank(s)
    decreases |s|
  {
    if s == [] {
    } else if IsSpace(s[0]) {
      CollapseIsJoin(LStrip(s[1..]));
      CollapseLeadSpace(s);
    } else if |s| == 1 {
      SplitSingle(s);
      assert CollapseSpace(s) == [s[0]] + CollapseSpace([]);
    } else {
      CollapseIsJoin(s[1..]);
      if IsSpace(s[1]) { CollapseShortWord(s); } else { CollapseLongWord(s); }
    }
  }

  /** Removing control characters distributes over concatenation. */
  lemma {:induction false} RemoveControlAppend(a: string, b: string)
    ensures RemoveControl(a + b) == RemoveControl(a) + RemoveControl(b)
  {
    if a == [] {
      assert a + b == b;
    } else {
      assert (a + b)[0] == a[0] && (a + b)[1..] == a[1..] + b;
      RemoveControlAppend(a[1..], b);
    }
  }

  /** One character: dropped when it is a control character, kept otherwise. */
  lemma RemoveControlChar(c: char)
    ensures RemoveControl([c]) == if IsControl(c) then [] else [c]
  {
    assert [c][1..] == [];
  }

  /** `RemoveControl` applied to every part. */
  function RemoveControlAll(ws: seq<string>): (rs: seq<string>)
    ensures |rs| == |ws|
    ensures forall k :: 0 <= k < |ws| ==> rs[k] == RemoveControl(ws[k])
  {
    if ws == [] then [] else [RemoveControl(ws[0])] + RemoveControlAll(ws[1..])
  }

  /** Removing control characters from a blank-joined string removes them part by part. */
  lemma {:induction false} RemoveControlJoin(ws: seq<string>)
    ensures RemoveControl(Join(" ", ws)) == Join(" ", RemoveControlAll(ws))
  {
    if |ws| > 1 {
      RemoveControlJoin(ws[1..]);
      RemoveControlAppend(ws[0] + " ", Join(" ", ws[1..]));
      RemoveControlAppend(ws[0], " ");
      RemoveControlChar(' ');
      assert RemoveControlAll(ws)[1..] == RemoveControlAll(ws[1..]);
    }
  }

  /** `strip` is the one slice with only whitespace around it that starts and ends with a non-space. */
  lemma StripUnique(s: string, a: int, b: int)
    requires 0 <= a < b <= |s|
    requires forall k :: 0 <= k < a ==> IsSpace(s[k])
    requires forall k :: b <= k < |s| ==> IsSpace(s[k])
    requires !IsSpace(s[a]) && !IsSpace(s[b - 1])
    ensures Strip(s) == s[a..b]
  {
    var i, r := LeadingSpace(s), Strip(s);
    assert r != [];
    assert i == a;
    assert r[|r| - 1] == s[i + |r| - 1];
    assert i + |r| == b;
  }

  /** Indexing into a string padded on both sides. */
  lemma PaddedIndex(pre: string, x: string, post: string, k: int)
    requires 0 <= k < |pre| + |x| + |post|
    ensures var s := pre + x + post;
      && (k < |pre| ==> s[k] == pre[k])
      && (|pre| <= k < |pre| + |x| ==> s[k] == x[k - |pre|])
      && (|pre| + |x| <= k ==> s[k] == post[k - |pre| - |x|])
  {
  }

  /** Slicing a padded string inside its middle part. */
  lemma PaddedSlice(pre: string, x: string, post: string, lo: int, hi: int)
    requires |pre| <= lo <= hi <= |pre| + |x|
    ensures (pre + x + post)[lo..hi] == x[lo - |pre|..hi - |pre|]
  {
    assert (pre + x + post)[..|pre| + |x|] == pre + x;
  }

  /** Whitespace around a string changes nothing about its strip. */
  lemma StripPadded(pre: string, x: string, post: string)
    requires forall k :: 0 <= k < |pre| ==> IsSpace(pre[k])
    requires forall k :: 0 <= k < |post| ==> IsSpace(post[k])
    ensures Strip(pre + x + post) == Strip(x)
  {
    var s, r, i := pre + x + post, Strip(x), LeadingSpace(x);
    if r == [] {
      forall k | 0 <= k < |s| ensures IsSpace(s[k]) {
        PaddedIndex(pre, x, post, k);
      }
    } else {
      StripPaddedWord(pre, x, post);
    }
  }

  lemma StripPaddedWord(pre: string, x: string, post: string)
    requires forall k :: 0 <= k < |pre| ==> IsSpace(pre[k])
    requires forall k :: 0 <= k < |post| ==> IsSpace(post[k])
    requires Strip(x) != []
    ensures Strip(pre + x + post) == Strip(x)
  {
    var s, r, i := pre + x + post, Strip(x), LeadingSpace(x);
    var a, b := |pre| + i, |pre| + i + |r|;
    forall k | 0 <= k < a ensures IsSpace(s[k]) {
      PaddedIndex(pre, x, post, k);
    }
    forall k | b <= k < |s| ensures IsSpace(s[k]) {
      PaddedIndex(pre, x, post, k);
    }
    assert s[a..b] == r by { PaddedSlice(pre, x, post, a, b); }
    StripUnique(s, a, b);
  }

  /**
   * `clean_text(s)` is `' '.join(...).strip()` of the words of `s` with their
   * control characters removed: which characters survive, in which order,
   * and exactly where the blanks go.
   */
  lemma CleanTextIsJoin(s: string)
    ensures CleanText(s) == Strip(Join(" ", RemoveControlAll(Split(s))))
  {
    var lead, words, trail := LeadBlank(s), Split(s), TrailBlank(s);
    var j := Join(" ", words);
    CollapseIsJoin(s);
    RemoveControlAppend(lead + j, trail);
    RemoveControlAppend(lead, j);
    RemoveControlJoin(words);
    RemoveControlChar(' ');
    assert RemoveControl("") == "";
    StripPadded(lead, Join(" ", RemoveControlAll(words)), trail);
  }
}
