/** The primitive parsers of src/parser.cpp, which need no child parser:
    string_parser_t (a literal), choice_of_string_parser_t, char_parser_t and
    the runs of characters built on it (chars_parser_t, maybe_chars_parser_t),
    together with the many1 check that chars_parser_t shares with
    many1_parser_t. The regular expressions of the source become a closed set
    of character classes. */
module Primitives {
  import opened Wrappers
  import opened Values
  import opened Utilities
  import opened ParseState

  /** How many characters of the target an error message quotes. */
  const SnippetLength: nat := 10

  /** The character classes the source builds regular expressions for:
      `[A-Za-z]`, `[0-9]`, `\s`, and a custom class given by its members. */
  datatype CharClass = Letter | Digit | Whitespace | Custom(members: set<char>)

  predicate Matches(c: CharClass, ch: char)
  {
    match c
    case Letter => 'A' <= ch <= 'Z' || 'a' <= ch <= 'z'
    case Digit => '0' <= ch <= '9'
    case Whitespace => ch == ' ' || '\t' <= ch <= '\r'
    case Custom(members) => ch in members
  }

  // ---------------------------------------------------------------------------
  // Error messages

  const StringEndError := "string_parser_t::run(): Unexpected end of string"
  const CharEndError := "char_parser_t::run(): Unexpected end of string"

  function StringMismatchError(lit: string, s: State): string
  {
    "string_parser_t::run(): Couldn't match \"" + lit + "\" in \""
      + AtMost(s.target, SnippetLength, s.index, true) + "\""
  }

  function ChoiceOfStringsError(s: State): string
  {
    "choice_of_string_parser_t::run(): Unable to match with any parser the string \""
      + AtMost(s.target, SnippetLength, s.index, false) + "\""
  }

  function CharMismatchError(s: State): string
  {
    "char_parser_t::run(): Couldn't match any character TODO in \""
      + AtMost(s.target, SnippetLength, s.index, true) + "\""
  }

  function Many1Error(s: State): string
  {
    "many1_parser_t::run(): Unable to match any inputs using given parser for the string \""
      + AtMost(s.target, SnippetLength, s.index, false) + "\""
  }

  // ---------------------------------------------------------------------------
  // string_parser_t

  /** A failed state is passed through. "Unexpected end of string" is reported
      only when the whole target is empty; a literal that occurs at the index
      gives a fresh state past it, with the literal as result; otherwise the
      input state fails with result "" and the index where it was. */
  function RunLiteral(lit: string, s: State): (r: State)
    ensures s.Failed() ==> r == s
    ensures !s.Failed() ==>
              (!r.Failed() <==> |s.target| > 0 && s.index + |lit| <= |s.target|
                                && s.target[s.index..s.index + |lit|] == lit)
    ensures !s.Failed() && !r.Failed() ==> r == State(s.target, s.index + |lit|, Str(lit), None)
    ensures !s.Failed() && r.Failed() ==>
              r.target == s.target && r.index == s.index && r.result == Str("")
    ensures !s.Failed() && |s.target| == 0 ==> r.error == Some(StringEndError)
  {
    if s.Failed() then s
    else if |s.target| == 0 then s.(result := Str(""), error := Some(StringEndError))
    else if StartsWith(s.target, lit, s.index) then State(s.target, s.index + |lit|, Str(lit), None)
    else s.(result := Str(""), error := Some(StringMismatchError(lit, s)))
  }

  // ---------------------------------------------------------------------------
  // choice_of_string_parser_t

  function RunWords(words: seq<string>, s: State): State
  {
    if s.Failed() then s else WordsFrom(words, s)
  }

  /** The loop of choice_of_string_parser_t: each word is tried as a literal
      on the same state; the first success is returned. */
  function WordsFrom(words: seq<string>, s: State): State
    requires !s.Failed()
  {
    if words == [] then s.(result := Str(""), error := Some(ChoiceOfStringsError(s)))
    else
      var next := RunLiteral(words[0], s);
      if !next.Failed() then next else WordsFrom(words[1..], s)
  }

  // ---------------------------------------------------------------------------
  // char_parser_t

  /** A failed state is passed through; an empty target fails with "Unexpected
      end of string"; a matching character at the index gives a fresh state
      one character further, with that character as result; otherwise the
      input state fails with result "". */
  function RunChar(c: CharClass, s: State): (r: State)
    ensures s.Failed() ==> r == s
    ensures !s.Failed() ==>
              (!r.Failed() <==> s.index < |s.target| && Matches(c, s.target[s.index]))
    ensures !s.Failed() && !r.Failed() ==>
              r == State(s.target, s.index + 1, Str([s.target[s.index]]), None)
    ensures !s.Failed() && r.Failed() ==>
              r.target == s.target && r.index == s.index && r.result == Str("")
  {
    if s.Failed() then s
    else if |s.target| == 0 then s.(result := Str(""), error := Some(CharEndError))
    else if s.index < |s.target| && Matches(c, s.target[s.index]) then
      State(s.target, s.index + 1, Str([s.target[s.index]]), None)
    else s.(result := Str(""), error := Some(CharMismatchError(s)))
  }

  // ---------------------------------------------------------------------------
  // many over a char parser, and the runs built on it

  /** One string value per character of `text`, in order. */
  function CharValues(text: string): (r: seq<Value>)
    ensures |r| == |text|
  {
    seq(|text|, k requires 0 <= k < |text| => Str([text[k]]))
  }

  /** The characters of `t` from `from` up to `to`; empty when the two meet. */
  function Span(t: string, from: nat, to: nat): string
    requires from <= to && (from < to ==> to <= |t|)
  {
    if from == to then "" else t[from..to]
  }

  /** `from..to` is the longest run of characters of class `c` in `t` that
      starts at `from`. */
  predicate MaximalRun(c: CharClass, t: string, from: nat, to: nat)
  {
    && from <= to
    && (from < to ==> to <= |t| && forall k :: from <= k < to ==> Matches(c, t[k]))
    && (to < |t| ==> !Matches(c, t[to]))
  }

  /** The loop of many_parser_t with a char parser as its child: keep the
      last successful state and collect each character's value; stop at the
      first character that fails the class. Every success advances the index,
      so this terminates without fuel. */
  function CharLoop(c: CharClass, cur: State, acc: seq<Value>): State
    requires !cur.Failed()
    decreases |cur.target| - cur.index
  {
    var next := RunChar(c, cur);
    if next.Failed() then cur.(result := List(acc)) else CharLoop(c, next, acc + [next.result])
  }

  /** The loop stops at the end of the longest run of matching characters. */
  lemma {:induction false} CharLoopStops(c: CharClass, cur: State, acc: seq<Value>)
    requires !cur.Failed()
    ensures var r := CharLoop(c, cur, acc);
            !r.Failed() && r.target == cur.target && MaximalRun(c, cur.target, cur.index, r.index)
    decreases |cur.target| - cur.index
  {
    var next := RunChar(c, cur);
    if next.Failed() {
      assert CharLoop(c, cur, acc) == cur.(result := List(acc));
      assert !(cur.index < |cur.target| && Matches(c, cur.target[cur.index]));
    } else {
      assert CharLoop(c, cur, acc) == CharLoop(c, next, acc + [next.result]);
      assert Matches(c, cur.target[cur.index]) && next.index == cur.index + 1 && next.target == cur.target;
      CharLoopStops(c, next, acc + [next.result]);
    }
  }

  /** The values of a run that starts with `ch`: its value, then the rest's. */
  lemma CharValuesCons(ch: char, rest: string)
    ensures CharValues([ch] + rest) == [Str([ch])] + CharValues(rest)
  {
    assert forall k :: 0 <= k < |rest| ==> ([ch] + rest)[k + 1] == rest[k];
  }

  /** A non-empty span is its first character followed by the span after it. */
  lemma SpanCons(t: string, from: nat, to: nat)
    requires from < to <= |t|
    ensures Span(t, from, to) == [t[from]] + Span(t, from + 1, to)
  {
    if from + 1 < to {
      assert t[from..to] == [t[from]] + t[from + 1..to];
    }
  }

  /** The loop appends one value per character of the run it passed over. */
  lemma {:induction false} CharLoopSpec(c: CharClass, cur: State, acc: seq<Value>)
    requires !cur.Failed()
    ensures var r := CharLoop(c, cur, acc);
            && !r.Failed() && r.target == cur.target
            && MaximalRun(c, cur.target, cur.index, r.index)
            && r.result == List(acc + CharValues(Span(cur.target, cur.index, r.index)))
    decreases |cur.target| - cur.index
  {
    CharLoopStops(c, cur, acc);
    var next := RunChar(c, cur);
    if next.Failed() {
      assert CharLoop(c, cur, acc) == cur.(result := List(acc));
      assert acc + CharValues("") == acc;
    } else {
      var t := cur.target;
      var x := next.result;
      assert x == Str([t[cur.index]]) && next.index == cur.index + 1 && next.target == t;
      var r := CharLoop(c, next, acc + [x]);
      assert CharLoop(c, cur, acc) == r;
      CharLoopSpec(c, next, acc + [x]);
      var rest := Span(t, next.index, r.index);
      SpanCons(t, cur.index, r.index);
      CharValuesCons(t[cur.index], rest);
      assert (acc + [x]) + CharValues(rest) == acc + ([x] + CharValues(rest));
    }
  }

  /** The lambda of chars_parser_t and maybe_chars_parser_t: the strings of
      the list concatenated in order. */
  function Concat(vs: seq<Value>): string
    requires forall i :: 0 <= i < |vs| ==> vs[i].Str?
  {
    if vs == [] then "" else Concat(vs[..|vs| - 1]) + vs[|vs| - 1].s
  }

  /** Concatenating the one-character values of a text gives the text back. */
  lemma {:induction false} ConcatCharValues(text: string)
    ensures Concat(CharValues(text)) == text
    decreases |text|
  {
    if text != [] {
      var n := |text| - 1;
      ConcatCharValues(text[..n]);
      assert CharValues(text)[..n] == CharValues(text[..n]);
      assert text[..n] + [text[n]] == text;
    }
  }

  /** many_parser_t::run over a char parser: a failed state passes through;
      an ok one advances over the longest run of matching characters and
      gets one value per character of it. */
  function ManyChars(c: CharClass, s: State): (r: State)
    ensures s.Failed() ==> r == s
    ensures !s.Failed() ==>
              && !r.Failed() && r.target == s.target
              && MaximalRun(c, s.target, s.index, r.index)
              && r.result == List(CharValues(Span(s.target, s.index, r.index)))
  {
    if s.Failed() then s
    else
      CharLoopSpec(c, s, []);
      CharLoop(c, s, [])
  }

  /** The check many1_parser_t makes after running many: a successful empty
      list fails, and does so on a fresh default state (empty target, index
      0); anything else passes through. */
  function Many1Check(m: State): (r: State)
    requires !m.Failed() ==> m.result.List?
    ensures r.Failed() <==> m.Failed() || m.result.items == []
    ensures !r.Failed() ==> r == m
    ensures m.Failed() ==> r == m
    ensures !m.Failed() && r.Failed() ==> r.target == "" && r.index == 0 && r.result == Str("")
  {
    if !m.Failed() && |m.result.items| == 0 then
      Default().(result := Str(""), error := Some(Many1Error(m)))
    else m
  }

  /** chars_parser_t: many1 over the char parser, then the collected
      characters concatenated into one string. */
  function RunChars(c: CharClass, s: State): (r: State)
    ensures s.Failed() ==> r == s
    ensures !s.Failed() ==>
              (!r.Failed() <==> s.index < |s.target| && Matches(c, s.target[s.index]))
    ensures !s.Failed() && !r.Failed() ==>
              && r.target == s.target && s.index < r.index
              && MaximalRun(c, s.target, s.index, r.index)
              && r.result == Str(s.target[s.index..r.index])
    ensures !s.Failed() && r.Failed() ==> r.target == "" && r.index == 0 && r.result == Str("")
  {
    var m := Many1Check(ManyChars(c, s));
    if m.Failed() then m
    else
      ConcatCharValues(Span(s.target, s.index, m.index));
      m.(result := Str(Concat(m.result.items)))
  }

  /** maybe_chars_parser_t: many over the char parser, then the collected
      characters concatenated; zero matches give "". */
  function RunMaybeChars(c: CharClass, s: State): (r: State)
    ensures s.Failed() ==> r == s
    ensures !s.Failed() ==>
              && !r.Failed() && r.target == s.target
              && MaximalRun(c, s.target, s.index, r.index)
              && r.result == Str(Span(s.target, s.index, r.index))
  {
    var m := ManyChars(c, s);
    if m.Failed() then m
    else
      ConcatCharValues(Span(s.target, s.index, m.index));
      m.(result := Str(Concat(m.result.items)))
  }

  // ---------------------------------------------------------------------------
  // What choice_of_string_parser_t promises

  /** The words are tried in order, each from the same state: the parser
      succeeds exactly when some word matches there, and then with the state
      of the first word that matches; when none does, the input state fails
      with result "" and its index unchanged. */
  lemma {:induction false} WordsFirstMatch(words: seq<string>, s: State)
    requires !s.Failed()
    ensures var r := RunWords(words, s);
            !r.Failed() <==> exists i :: 0 <= i < |words| && !RunLiteral(words[i], s).Failed()
    ensures var r := RunWords(words, s);
            !r.Failed() ==> exists i :: 0 <= i < |words| && r == RunLiteral(words[i], s)
                                      && forall j :: 0 <= j < i ==> RunLiteral(words[j], s).Failed()
    ensures var r := RunWords(words, s);
            r.Failed() ==> r == s.(result := Str(""), error := Some(ChoiceOfStringsError(s)))
    decreases |words|
  {
    if words != [] {
      var rest := words[1..];
      WordsFirstMatch(rest, s);
      assert forall i :: 0 <= i < |rest| ==> rest[i] == words[i + 1];
      if !RunLiteral(words[0], s).Failed() {
        assert RunWords(words, s) == RunLiteral(words[0], s);
      } else {
        assert RunWords(words, s) == RunWords(rest, s);
        if !RunWords(rest, s).Failed() {
          var i :| 0 <= i < |rest| && RunWords(rest, s) == RunLiteral(rest[i], s)
                   && forall j :: 0 <= j < i ==> RunLiteral(rest[j], s).Failed();
          assert RunWords(words, s) == RunLiteral(words[i + 1], s);
          assert forall j :: 0 <= j < i + 1 ==> RunLiteral(words[j], s).Failed() by {
            forall j | 0 <= j < i + 1 ensures RunLiteral(words[j], s).Failed() {
              if j > 0 { assert words[j] == rest[j - 1]; }
            }
          }
        } else {
          forall i | 0 <= i < |words| ensures RunLiteral(words[i], s).Failed() {
            if i > 0 { assert words[i] == rest[i - 1]; }
          }
        }
      }
    }
  }
}
