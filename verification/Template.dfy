/** Notification templates: every `{{word}}` token is replaced from the variables in one
    left-to-right pass. */
module Template {
  import opened Outcomes

  /** `\w` */
  predicate IsWord(c: char) {
    'a' <= c <= 'z' || 'A' <= c <= 'Z' || '0' <= c <= '9' || c == '_'
  }

  /** The variables a trigger supplies, and the properties the vars object inherits: both are
      found by `vars[key]`. */
  datatype Vars = Vars(own: map<string, string>, inherited: map<string, string>)

  function Lookup(vars: Vars, key: string): Option<string> {
    if key in vars.own then Some(vars.own[key])
    else if key in vars.inherited then Some(vars.inherited[key])
    else None
  }

  function Token(key: string): string {
    "{{" + key + "}}"
  }

  predicate IsKey(key: string) {
    key != "" && forall c | c in key :: IsWord(c)
  }

  /** The replacement callback: the value, or the token itself when there is none. */
  function Substitute(vars: Vars, key: string): string {
    match Lookup(vars, key) case Some(value) => value case None => Token(key)
  }

  // ---- the scan --------------------------------------------------------------------------

  /** End of the greedy run of word characters starting at `i`. */
  function WordEnd(text: string, i: nat): (j: nat)
    requires i <= |text|
    ensures i <= j <= |text| && (forall k | i <= k < j :: IsWord(text[k])) && (j < |text| ==> !IsWord(text[j]))
    decreases |text| - i
  {
    if i < |text| && IsWord(text[i]) then WordEnd(text, i + 1) else i
  }

  predicate DoubledAt(text: string, i: nat, c: char) {
    i + 2 <= |text| && text[i] == c && text[i + 1] == c
  }

  /** The key of the match starting exactly at `i`, if there is one. */
  function MatchAt(text: string, i: nat): Option<string> {
    if !DoubledAt(text, i, '{') then None
    else
      var j := WordEnd(text, i + 2);
      if j > i + 2 && DoubledAt(text, j, '}') then Some(text[i + 2..j]) else None
  }

  /** `text.replace(/\{\{(\w+)\}\}/g, ...)` from position `i` on. */
  function RenderFrom(text: string, vars: Vars, i: nat): string
    requires i <= |text|
    decreases |text| - i
  {
    if i == |text| then ""
    else
      match MatchAt(text, i)
      case Some(key) => Substitute(vars, key) + RenderFrom(text, vars, i + |key| + 4)
      case None => [text[i]] + RenderFrom(text, vars, i + 1)
  }

  function Render(text: string, vars: Vars): string {
    RenderFrom(text, vars, 0)
  }

  // ---- matches, declaratively ------------------------------------------------------------

  predicate StartsWith(text: string, i: nat, prefix: string) {
    i + |prefix| <= |text| && text[i..i + |prefix|] == prefix
  }

  /** A token with this key stands at position `i`. */
  ghost predicate TokenAt(text: string, i: nat, key: string) {
    IsKey(key) && StartsWith(text, i, Token(key))
  }

  /** What that means character by character. */
  lemma TokenParts(text: string, i: nat, key: string)
    ensures StartsWith(text, i, Token(key))
       <==> DoubledAt(text, i, '{') && StartsWith(text, i + 2, key) && DoubledAt(text, i + 2 + |key|, '}')
  {
    var t, n := Token(key), |key|;
    TokenLetters(key);
    hide Token;
    if StartsWith(text, i, t) {
      var s := text[i..i + 4 + n];
      assert s == t;
      assert text[i] == s[0] && text[i + 1] == s[1] && text[i + 2 + n] == s[2 + n] && text[i + 3 + n] == s[3 + n];
      forall k | 0 <= k < n
        ensures text[i + 2 + k] == key[k]
      {
        assert text[i + 2 + k] == s[2 + k] == t[2..2 + n][k];
      }
      assert text[i + 2..i + 2 + n] == key;
    }
    if DoubledAt(text, i, '{') && StartsWith(text, i + 2, key) && DoubledAt(text, i + 2 + n, '}') {
      forall k | 0 <= k < 4 + n
        ensures text[i + k] == t[k]
      {
        if 2 <= k < 2 + n {
          assert text[i + 2..i + 2 + n][k - 2] == key[k - 2] == t[2..2 + n][k - 2];
        }
      }
      assert text[i..i + |t|] == t;
    }
  }

  lemma TokenLetters(key: string)
    ensures |Token(key)| == |key| + 4 && Token(key)[2..2 + |key|] == key
    ensures Token(key)[0] == '{' && Token(key)[1] == '{' && Token(key)[2 + |key|] == '}' && Token(key)[3 + |key|] == '}'
  {
  }

  lemma {:induction false} WordEndOfKey(text: string, i: nat, key: string)
    requires i + |key| < |text| && text[i..i + |key|] == key
    requires (forall c | c in key :: IsWord(c)) && !IsWord(text[i + |key|])
    ensures WordEnd(text, i) == i + |key|
    decreases |key|
  {
    if key != "" {
      assert text[i] == key[0] && key[0] in key;
      assert text[i + 1..i + 1 + |key[1..]|] == key[1..];
      WordEndOfKey(text, i + 1, key[1..]);
    }
  }

  lemma TokenIsMatched(text: string, i: nat, key: string)
    requires TokenAt(text, i, key)
    ensures MatchAt(text, i) == Some(key)
  {
    TokenParts(text, i, key);
    var j := i + 2 + |key|;
    WordEndOfKey(text, i + 2, key);
  }

  lemma MatchedIsToken(text: string, i: nat, key: string)
    requires MatchAt(text, i) == Some(key)
    ensures TokenAt(text, i, key)
  {
    var j := WordEnd(text, i + 2);
    TokenParts(text, i, key);
    forall c | c in key
      ensures IsWord(c)
    {
      var k :| 0 <= k < |key| && key[k] == c;
      assert key[k] == text[i + 2 + k];
    }
  }

  /** The greedy scan finds a token at a position exactly when one stands there, and there is
      never a choice which. */
  lemma MatchIsToken(text: string, i: nat, key: string)
    ensures MatchAt(text, i) == Some(key) <==> TokenAt(text, i, key)
  {
    if TokenAt(text, i, key) {
      TokenIsMatched(text, i, key);
    }
    if MatchAt(text, i) == Some(key) {
      MatchedIsToken(text, i, key);
    }
  }

  /** A text cut into literal stretches and tokens. */
  datatype Segment = Literal(text: string) | Placeholder(key: string)

  function Source(s: Segment): string {
    match s case Literal(text) => text case Placeholder(key) => Token(key)
  }

  function Value(s: Segment, vars: Vars): string {
    match s case Literal(text) => text case Placeholder(key) => Substitute(vars, key)
  }

  function SourceOf(segments: seq<Segment>): string {
    if segments == [] then "" else Source(segments[0]) + SourceOf(segments[1..])
  }

  function ValueOf(segments: seq<Segment>, vars: Vars): string {
    if segments == [] then "" else Value(segments[0], vars) + ValueOf(segments[1..], vars)
  }

  /** The leftmost, non-overlapping matches of `text` from position `i`: pieces that add up to
      the text, where a token starts at no position a literal covers. */
  ghost predicate Leftmost(text: string, i: nat, segments: seq<Segment>)
    decreases |segments|
  {
    if segments == [] then i == |text|
    else HeadAt(text, i, segments[0]) && Leftmost(text, i + |Source(segments[0])|, segments[1..])
  }

  /** A token stands at `i`, or no token does and the piece is that one character. */
  ghost predicate HeadAt(text: string, i: nat, head: Segment) {
    && i < |text| && StartsWith(text, i, Source(head))
    && match head
       case Literal(s) => |s| == 1 && forall key :: !TokenAt(text, i, key)
       case Placeholder(key) => IsKey(key)
  }

  /** The piece the scan takes at `i`. */
  function Head(text: string, i: nat): (head: Segment)
    requires i < |text|
    ensures 0 < |Source(head)| && i + |Source(head)| <= |text|
  {
    match MatchAt(text, i)
    case Some(key) => Placeholder(key)
    case None => Literal([text[i]])
  }

  function TokeniseFrom(text: string, i: nat): seq<Segment>
    requires i <= |text|
    decreases |text| - i
  {
    if i == |text| then [] else [Head(text, i)] + TokeniseFrom(text, i + |Source(Head(text, i))|)
  }

  function Tokenise(text: string): seq<Segment> {
    TokeniseFrom(text, 0)
  }

  /** The scan takes the only piece the specification allows. */
  lemma HeadUnique(text: string, i: nat, head: Segment)
    requires i < |text|
    ensures HeadAt(text, i, head) <==> head == Head(text, i)
  {
    hide MatchAt, StartsWith;
    match MatchAt(text, i) {
      case Some(key) => MatchIsToken(text, i, key);
      case None =>
        forall key ensures !TokenAt(text, i, key) {
          MatchIsToken(text, i, key);
        }
    }
    OneCharacter(text, i, Source(head));
    if head.Placeholder? {
      MatchIsToken(text, i, head.key);
    }
  }

  lemma OneCharacter(text: string, i: nat, s: string)
    requires i < |text|
    ensures |s| == 1 ==> (StartsWith(text, i, s) <==> s == [text[i]])
  {
    if |s| == 1 {
      assert text[i..i + 1] == [text[i]];
    }
  }

  lemma {:induction false} TokeniseIsLeftmost(text: string, i: nat)
    requires i <= |text|
    ensures Leftmost(text, i, TokeniseFrom(text, i))
    decreases |text| - i
  {
    hide Head, HeadAt, Source;
    if i < |text| {
      var head := Head(text, i);
      HeadUnique(text, i, head);
      TokeniseIsLeftmost(text, i + |Source(head)|);
      assert TokeniseFrom(text, i)[1..] == TokeniseFrom(text, i + |Source(head)|);
    }
  }

  /** There is only one way to cut a text at its leftmost matches. */
  lemma {:induction false} LeftmostUnique(text: string, i: nat, segments: seq<Segment>)
    requires i <= |text| && Leftmost(text, i, segments)
    ensures segments == TokeniseFrom(text, i)
    decreases |segments|
  {
    hide Leftmost, Source, Head;
    LeftmostHead(text, i, segments);
    if segments != [] {
      LeftmostUnique(text, i + |Source(segments[0])|, segments[1..]);
      assert segments == [segments[0]] + segments[1..];
    }
  }

  lemma LeftmostHead(text: string, i: nat, segments: seq<Segment>)
    requires i <= |text| && Leftmost(text, i, segments)
    ensures segments == [] <==> i == |text|
    ensures segments != [] ==> segments[0] == Head(text, i)
                               && Leftmost(text, i + |Source(segments[0])|, segments[1..])
  {
    if segments != [] {
      assert HeadAt(text, i, segments[0]);
      hide Source, Head;
      HeadUnique(text, i, segments[0]);
    }
  }

  lemma RenderStep(text: string, vars: Vars, i: nat)
    requires i <= |text|
    ensures RenderFrom(text, vars, i) == if i == |text| then "" else
              Value(Head(text, i), vars) + RenderFrom(text, vars, i + |Source(Head(text, i))|)
  {
    hide MatchAt, Substitute;
  }

  lemma {:induction false} RenderIsValue(text: string, vars: Vars, i: nat)
    requires i <= |text|
    ensures RenderFrom(text, vars, i) == ValueOf(TokeniseFrom(text, i), vars)
    decreases |text| - i
  {
    hide RenderFrom, Head, Source, Value;
    RenderStep(text, vars, i);
    if i < |text| {
      var rest := i + |Source(Head(text, i))|;
      RenderIsValue(text, vars, rest);
      assert TokeniseFrom(text, i)[1..] == TokeniseFrom(text, rest);
    }
  }

  lemma HeadText(text: string, i: nat, head: Segment)
    requires HeadAt(text, i, head)
    ensures i + |Source(head)| <= |text| && text[i..] == Source(head) + text[i + |Source(head)|..]
  {
    hide Source, TokenAt, IsKey;
    CutAt(text, i, |Source(head)|);
  }

  lemma CutAt(text: string, i: nat, n: nat)
    requires i + n <= |text|
    ensures text[i..] == text[i..i + n] + text[i + n..]
  {
  }

  lemma {:induction false} SourceRestored(text: string, i: nat, segments: seq<Segment>)
    requires i <= |text| && Leftmost(text, i, segments)
    ensures SourceOf(segments) == text[i..]
    decreases |segments|
  {
    hide Leftmost, Source, Head;
    LeftmostHead(text, i, segments);
    if segments != [] {
      HeadUnique(text, i, segments[0]);
      HeadText(text, i, segments[0]);
      hide HeadAt;
      SourceRestored(text, i + |Source(segments[0])|, segments[1..]);
    }
  }

  /** The one-pass scan is the leftmost-match specification: any way of cutting the text at its
      leftmost matches restores the text when read back, and gives the rendered text when each
      token is replaced by its value. The values go in as they are, so what they contain is
      never expanded again. */
  lemma RenderMeetsSpecification(text: string, vars: Vars, segments: seq<Segment>)
    requires Leftmost(text, 0, segments)
    ensures SourceOf(segments) == text
    ensures Render(text, vars) == ValueOf(segments, vars)
  {
    LeftmostUnique(text, 0, segments);
    SourceRestored(text, 0, segments);
    RenderIsValue(text, vars, 0);
    assert text[0..] == text;
  }

  /** And such a cut always exists. */
  lemma CutExists(text: string)
    ensures Leftmost(text, 0, Tokenise(text))
  {
    TokeniseIsLeftmost(text, 0);
  }

  lemma {:induction false} ValuesEqualSources(segments: seq<Segment>, vars: Vars)
    requires forall s | s in segments && s.Placeholder? :: Lookup(vars, s.key).None?
    ensures ValueOf(segments, vars) == SourceOf(segments)
  {
    if segments != [] {
      ValuesEqualSources(segments[1..], vars);
      assert segments[0] in segments;
    }
  }

  /** A text none of whose tokens has a value comes out verbatim. */
  lemma UntouchedText(text: string, vars: Vars)
    requires forall s | s in Tokenise(text) && s.Placeholder? :: s.key !in vars.own && s.key !in vars.inherited
    ensures Render(text, vars) == text
  {
    CutExists(text);
    RenderMeetsSpecification(text, vars, Tokenise(text));
    ValuesEqualSources(Tokenise(text), vars);
  }

  // ---- which characters make a token ---------------------------------------------------------

  /** The word class of the pattern: the ASCII digits, letters and underscore, by code point. */
  lemma WordClass(c: char)
    ensures IsWord(c) <==> 48 <= c as int <= 57 || 65 <= c as int <= 90 || 97 <= c as int <= 122 || c as int == 95
  {
  }

  /** A token such as the stored templates use, its name in two words, takes its value anywhere. */
  lemma TenantNameIsReplaced(a: string, b: string, name: string, inherited: map<string, string>)
    ensures var vars := Vars(map["tenant_name" := name], inherited);
            Render(a + "{{tenant_name}}" + b, vars) == Render(a, vars) + name + Render(b, vars)
  {
    var vars, key := Vars(map["tenant_name" := name], inherited), "tenant_name";
    assert IsKey(key);
    assert Token(key) == "{{tenant_name}}";
    RenderAround(a, key, b, vars);
  }

  /** A text without a doubled opening brace has no token and comes out verbatim. */
  lemma {:induction false} NoBracesNoChange(text: string, vars: Vars, i: nat)
    requires i <= |text| && forall k | 0 <= k < |text| - 1 :: !(text[k] == '{' && text[k + 1] == '{')
    ensures RenderFrom(text, vars, i) == text[i..]
    decreases |text| - i
  {
    if i < |text| {
      NoBracesNoChange(text, vars, i + 1);
      assert text[i..] == [text[i]] + text[i + 1..];
    }
  }

  // ---- a token in the middle of any text ---------------------------------------------------

  lemma TokenCharacters(key: string, k: nat)
    requires IsKey(key) && 1 <= k < |Token(key)|
    ensures k == 1 ==> IsWord(Token(key)[2])
    ensures k >= 2 ==> Token(key)[k] != '{'
  {
    if 2 <= k < 2 + |key| {
      assert Token(key)[k] == key[k - 2] && key[k - 2] in key;
    } else if k >= 2 {
      assert Token(key)[k] == '}';
    }
    assert Token(key)[2] == key[0] && key[0] in key;
  }

  /** No match straddles the place where a token begins. */
  lemma MatchEndsBefore(a: string, key: string, b: string, i: nat, other: string)
    requires IsKey(key) && i < |a| && TokenAt(a + Token(key) + b, i, other)
    ensures i + |Token(other)| <= |a|
  {
    var text, n, p := a + Token(key) + b, |Token(other)|, |a| - i;
    if i + n > |a| {
      var t := text[i..i + n];
      assert t == Token(other) && t[p] == text[|a|] == '{' && text[|a| + 1] == '{';
      assert p == 1 ==> t[2] == text[|a| + 1];
      TokenCharacters(other, p);
    }
  }

  lemma SameMatches(a: string, key: string, b: string, i: nat)
    requires IsKey(key) && i < |a|
    ensures MatchAt(a + Token(key) + b, i) == MatchAt(a, i)
    ensures MatchAt(a, i).Some? ==> i + |MatchAt(a, i).value| + 4 <= |a|
  {
    hide MatchAt;
    var text := a + Token(key) + b;
    forall other
      ensures TokenAt(text, i, other) <==> TokenAt(a, i, other)
    {
      if TokenAt(text, i, other) {
        MatchEndsBefore(a, key, b, i, other);
        assert text[i..i + |Token(other)|] == a[i..i + |Token(other)|];
      }
      if TokenAt(a, i, other) {
        assert text[i..i + |Token(other)|] == a[i..i + |Token(other)|];
      }
    }
    SameKeys(text, a, i);
  }

  lemma SameKeys(text: string, a: string, i: nat)
    requires forall key :: TokenAt(text, i, key) <==> TokenAt(a, i, key)
    ensures MatchAt(text, i) == MatchAt(a, i)
    ensures MatchAt(a, i).Some? ==> i + |MatchAt(a, i).value| + 4 <= |a|
  {
    hide MatchAt, TokenAt;
    var x, y := MatchAt(text, i), MatchAt(a, i);
    if x.Some? {
      MatchIsToken(text, i, x.value);
      MatchIsToken(a, i, x.value);
    }
    if y.Some? {
      MatchIsToken(text, i, y.value);
      MatchIsToken(a, i, y.value);
      TokenFits(a, i, y.value);
    }
  }

  lemma TokenFits(text: string, i: nat, key: string)
    requires TokenAt(text, i, key)
    ensures i + |key| + 4 <= |text|
  {
  }

  lemma RenderAt(text: string, vars: Vars, i: nat)
    requires i < |text|
    ensures match MatchAt(text, i)
            case Some(key) => i + |key| + 4 <= |text|
                              && RenderFrom(text, vars, i) == Substitute(vars, key) + RenderFrom(text, vars, i + |key| + 4)
            case None => RenderFrom(text, vars, i) == [text[i]] + RenderFrom(text, vars, i + 1)
  {
    hide Substitute;
  }

  lemma {:induction false} RenderBefore(a: string, key: string, b: string, vars: Vars, i: nat)
    requires IsKey(key) && i <= |a|
    ensures RenderFrom(a + Token(key) + b, vars, i) == RenderFrom(a, vars, i) + RenderFrom(a + Token(key) + b, vars, |a|)
    decreases |a| - i
  {
    hide MatchAt, Substitute, RenderFrom, IsKey;
    var text := a + Token(key) + b;
    if i < |a| {
      SameMatches(a, key, b, i);
      RenderAt(text, vars, i);
      RenderAt(a, vars, i);
      var rest := match MatchAt(a, i) case Some(k) => i + |k| + 4 case None => i + 1;
      var piece := match MatchAt(a, i) case Some(k) => Substitute(vars, k) case None => [a[i]];
      RenderBefore(a, key, b, vars, rest);
      assert piece + (RenderFrom(a, vars, rest) + RenderFrom(text, vars, |a|))
          == (piece + RenderFrom(a, vars, rest)) + RenderFrom(text, vars, |a|);
    } else {
      RenderEnd(a, vars);
    }
  }

  lemma RenderEnd(text: string, vars: Vars)
    ensures RenderFrom(text, vars, |text|) == ""
  {
  }

  lemma SuffixMatches(a: string, b: string, i: nat)
    ensures MatchAt(a + b, |a| + i) == MatchAt(b, i)
  {
    if DoubledAt(b, i, '{') {
      SuffixWords(a, b, i + 2);
      var j := WordEnd(b, i + 2);
      assert (a + b)[|a| + i + 2..|a| + j] == b[i + 2..j];
    }
  }

  lemma {:induction false} SuffixWords(a: string, b: string, i: nat)
    requires i <= |b|
    ensures WordEnd(a + b, |a| + i) == |a| + WordEnd(b, i)
    decreases |b| - i
  {
    if i < |b| && IsWord(b[i]) {
      SuffixWords(a, b, i + 1);
    }
  }

  lemma {:induction false} RenderSuffix(a: string, b: string, vars: Vars, i: nat)
    requires i <= |b|
    ensures RenderFrom(a + b, vars, |a| + i) == RenderFrom(b, vars, i)
    decreases |b| - i
  {
    hide MatchAt, Substitute, RenderFrom;
    if i < |b| {
      SuffixMatches(a, b, i);
      RenderAt(a + b, vars, |a| + i);
      RenderAt(b, vars, i);
      RenderSuffix(a, b, vars, match MatchAt(b, i) case Some(key) => i + |key| + 4 case None => i + 1);
    } else {
      RenderEnd(a + b, vars);
      RenderEnd(b, vars);
    }
  }

  /** Whatever surrounds a token, it renders to its own value and the text around it as if it
      stood alone. */
  lemma RenderAround(a: string, key: string, b: string, vars: Vars)
    requires IsKey(key)
    ensures Render(a + Token(key) + b, vars) == Render(a, vars) + Substitute(vars, key) + Render(b, vars)
  {
    hide MatchAt, Substitute, RenderFrom;
    var text := a + Token(key) + b;
    RenderBefore(a, key, b, vars, 0);
    assert TokenAt(text, |a|, key) by {
      assert text[|a|..|a| + |Token(key)|] == Token(key);
    }
    MatchIsToken(text, |a|, key);
    RenderAt(text, vars, |a|);
    RenderSuffix(a + Token(key), b, vars, 0);
    assert |a + Token(key)| == |a| + |key| + 4;
    assert Render(a, vars) + (Substitute(vars, key) + Render(b, vars)) == Render(a, vars) + Substitute(vars, key) + Render(b, vars);
  }

  /** A token without a value survives verbatim in every text, known tokens beside it or not. */
  lemma UnknownTokensSurvive(a: string, key: string, b: string, vars: Vars)
    requires IsKey(key) && key !in vars.own && key !in vars.inherited
    ensures Render(a + Token(key) + b, vars) == Render(a, vars) + Token(key) + Render(b, vars)
  {
    RenderAround(a, key, b, vars);
  }

  /** With no variables of its own, rendering is the identity on every text exactly when no
      inherited property has a word for its name and another text for its value. */
  lemma EmptyVarsIdentity(inherited: map<string, string>)
    ensures (forall text :: Render(text, Vars(map[], inherited)) == text)
       <==> (forall key | key in inherited && IsKey(key) :: inherited[key] == Token(key))
  {
    var vars := Vars(map[], inherited);
    if forall key | key in inherited && IsKey(key) :: inherited[key] == Token(key) {
      forall text
        ensures Render(text, vars) == text
      {
        CutExists(text);
        RenderMeetsSpecification(text, vars, Tokenise(text));
        KeysOfCut(text, 0, Tokenise(text));
        HarmlessValues(Tokenise(text), vars);
      }
    }
    forall key | key in inherited && IsKey(key)
      ensures Render(Token(key), vars) == inherited[key]
    {
      RenderToken(key, vars);
    }
    if forall text :: Render(text, vars) == text {
      forall key | key in inherited && IsKey(key)
        ensures inherited[key] == Token(key)
      {
        assert Render(Token(key), vars) == Token(key);
      }
    }
  }

  lemma {:induction false} KeysOfCut(text: string, i: nat, segments: seq<Segment>)
    requires Leftmost(text, i, segments)
    ensures forall s | s in segments && s.Placeholder? :: IsKey(s.key)
    decreases |segments|
  {
    hide StartsWith, TokenAt;
    if segments != [] {
      KeysOfCut(text, i + |Source(segments[0])|, segments[1..]);
    }
  }

  lemma {:induction false} HarmlessValues(segments: seq<Segment>, vars: Vars)
    requires forall s | s in segments && s.Placeholder? :: Substitute(vars, s.key) == Token(s.key)
    ensures ValueOf(segments, vars) == SourceOf(segments)
  {
    if segments != [] {
      HarmlessValues(segments[1..], vars);
      assert segments[0] in segments;
    }
  }

  /** A lone token renders to its value, whatever that is. */
  lemma RenderToken(key: string, vars: Vars)
    requires IsKey(key)
    ensures Render(Token(key), vars) == Substitute(vars, key)
  {
    var text := Token(key);
    assert text[0..|text|] == text;
    MatchIsToken(text, 0, key);
    assert RenderFrom(text, vars, |text|) == "";
  }

  const CONSTRUCTOR: string := "constructor"

  /** `constructor` is such a name: every object inherits it, and its text is never a token. */
  lemma ConstructorIsReplaced(value: string)
    requires value != Token(CONSTRUCTOR)
    ensures Render(Token(CONSTRUCTOR), Vars(map[], map[CONSTRUCTOR := value])) == value
    ensures exists text :: Render(text, Vars(map[], map[CONSTRUCTOR := value])) != text
  {
    RenderToken(CONSTRUCTOR, Vars(map[], map[CONSTRUCTOR := value]));
  }

  /** A value that is itself a token is left as text: a second rendering would change it. */
  lemma ValuesAreNotExpanded(a: string, b: string, value: string, inherited: map<string, string>)
    requires IsKey(a) && IsKey(b) && a != b && value != Token(b)
    ensures var vars := Vars(map[a := Token(b), b := value], inherited);
            Render(Token(a), vars) == Token(b) && Render(Render(Token(a), vars), vars) == value
  {
    var vars := Vars(map[a := Token(b), b := value], inherited);
    RenderToken(a, vars);
    RenderToken(b, vars);
  }
}
