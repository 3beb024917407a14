/** The input sanitiser and the random identifier of `src/utils/security.ts`.
    Sanitising is three passes over the text: the angle brackets are
    dropped, every case-insensitive `javascript:` is cut out in one
    left-to-right scan, and the ends are trimmed. */
module Security {
  import opened Wrappers
  import JsString

  predicate IsAngle(c: char)
  {
    c == '<' || c == '>'
  }

  predicate NoAngles(s: string)
  {
    forall i | 0 <= i < |s| :: !IsAngle(s[i])
  }

  /** `replaceAll(/[<>]/g, '')`: the brackets go, everything else keeps its
      order. */
  function StripAngles(s: string): (r: string)
    ensures NoAngles(r)
    ensures |r| <= |s|
    ensures multiset(r) <= multiset(s)
    ensures NoAngles(s) ==> r == s
  {
    if s == [] then []
    else
      assert s == [s[0]] + s[1..];
      if IsAngle(s[0]) then StripAngles(s[1..]) else [s[0]] + StripAngles(s[1..])
  }

  lemma {:induction false} StripAnglesAppend(a: string, b: string)
    ensures StripAngles(a + b) == StripAngles(a) + StripAngles(b)
    decreases |a|
  {
    if a == [] {
      assert a + b == b;
    } else {
      assert (a + b)[0] == a[0];
      assert (a + b)[1..] == a[1..] + b;
      StripAnglesAppend(a[1..], b);
    }
  }

  const Protocol := "javascript:"

  /** The pattern `/javascript:/i` matches at position `i`. */
  predicate MatchesAt(s: string, i: int)
  {
    0 <= i && i + |Protocol| <= |s|
    && forall k | 0 <= k < |Protocol| :: JsString.LowerAscii(s[i + k]) == Protocol[k]
  }

  predicate HasProtocol(s: string)
  {
    exists i | 0 <= i <= |s| - |Protocol| :: MatchesAt(s, i)
  }

  /** `replaceAll(/javascript:/gi, '')`: the scan moves left to right;
      a match is cut out and the scan resumes after it, so text that only
      becomes a match once a match inside it is cut out is not looked at
      again. */
  function StripProtocol(s: string): (r: string)
    ensures |r| <= |s|
    ensures multiset(r) <= multiset(s)
    decreases |s|
  {
    if s == [] then []
    else if MatchesAt(s, 0) then
      assert s == s[..|Protocol|] + s[|Protocol|..];
      StripProtocol(s[|Protocol|..])
    else
      assert s == [s[0]] + s[1..];
      [s[0]] + StripProtocol(s[1..])
  }

  /** A match in a suffix is a match in the whole. */
  lemma MatchShift(s: string, d: nat, i: int)
    requires d <= |s| && MatchesAt(s[d..], i)
    ensures MatchesAt(s, i + d)
  {
    forall k | 0 <= k < |Protocol|
      ensures JsString.LowerAscii(s[i + d + k]) == Protocol[k]
    {
      assert s[d..][i + k] == s[i + d + k];
    }
  }

  /** Text without the protocol passes through unchanged. */
  lemma {:induction false} StripProtocolIdentity(s: string)
    requires !HasProtocol(s)
    ensures StripProtocol(s) == s
    decreases |s|
  {
    if s != [] {
      assert !MatchesAt(s, 0);
      assert !HasProtocol(s[1..]) by {
        forall i | 0 <= i <= |s[1..]| - |Protocol| && MatchesAt(s[1..], i)
          ensures false
        {
          MatchShift(s, 1, i);
        }
      }
      StripProtocolIdentity(s[1..]);
    }
  }

  /** Text with the protocol loses at least one occurrence's worth of
      characters. */
  lemma {:induction false} StripProtocolShrinks(s: string)
    requires HasProtocol(s)
    ensures |StripProtocol(s)| + |Protocol| <= |s|
    decreases |s|
  {
    if !MatchesAt(s, 0) {
      var i :| 0 <= i <= |s| - |Protocol| && MatchesAt(s, i);
      assert i >= 1;
      assert MatchesAt(s[1..], i - 1) by {
        forall k | 0 <= k < |Protocol|
          ensures JsString.LowerAscii(s[1..][i - 1 + k]) == Protocol[k]
        {
          assert s[1..][i - 1 + k] == s[i + k];
        }
      }
      StripProtocolShrinks(s[1..]);
    }
  }

  /** A prefix that holds no `j` or `J` cannot start a match, so it passes
      through untouched. */
  lemma {:induction false} StripProtocolPassThrough(a: string, b: string)
    requires forall i | 0 <= i < |a| :: a[i] != 'j' && a[i] != 'J'
    ensures StripProtocol(a + b) == a + StripProtocol(b)
    decreases |a|
  {
    if a == [] {
      assert a + b == b;
    } else {
      calc {
        StripProtocol(a + b);
      == { var s := a + b;
           assert s[0] == a[0] && s[1..] == a[1..] + b;
           assert JsString.LowerAscii(a[0]) != Protocol[0];
           assert !MatchesAt(s, 0);
           StripProtocolStep(s); }
        [a[0]] + StripProtocol(a[1..] + b);
      == { assert forall i | 0 <= i < |a| - 1 :: a[1..][i] == a[i + 1];
           StripProtocolPassThrough(a[1..], b); }
        [a[0]] + (a[1..] + StripProtocol(b));
      == { HeadThenRest(a, StripProtocol(b)); }
        a + StripProtocol(b);
      }
    }
  }

  /** A match at the front is cut out. */
  lemma StripProtocolCutsFront(m: string, b: string)
    requires |m| == |Protocol| && forall k | 0 <= k < |m| :: JsString.LowerAscii(m[k]) == Protocol[k]
    ensures StripProtocol(m + b) == StripProtocol(b)
  {
    assert forall k | 0 <= k < |Protocol| :: (m + b)[k] == m[k];
    assert MatchesAt(m + b, 0);
    assert (m + b)[|Protocol|..] == b;
  }

  /** `sanitizeInput` as written. */
  function SanitizeInput(input: string): (r: string)
    ensures NoAngles(r)
    ensures |r| <= |input|
    ensures r == [] || (!JsString.IsWhitespace(r[0]) && !JsString.IsWhitespace(r[|r| - 1]))
    ensures multiset(r) <= multiset(input)
  {
    var r := JsString.Trim(StripProtocol(StripAngles(input)));
    NoAnglesSurvive(StripAngles(input), StripProtocol(StripAngles(input)));
    NoAnglesSurvive(StripProtocol(StripAngles(input)), r);
    r
  }

  /** Dropping characters cannot bring a bracket in. */
  lemma NoAnglesSurvive(s: string, r: string)
    requires NoAngles(s) && multiset(r) <= multiset(s)
    ensures NoAngles(r)
  {
    forall i | 0 <= i < |r|
      ensures !IsAngle(r[i])
    {
      assert r[i] in multiset(r);
    }
  }

  /** Text that is already clean (no brackets, no protocol, trimmed) is
      left as it is. */
  lemma SanitizeInputFixesCleanText(s: string)
    requires NoAngles(s) && !HasProtocol(s)
    requires s == [] || (!JsString.IsWhitespace(s[0]) && !JsString.IsWhitespace(s[|s| - 1]))
    ensures SanitizeInput(s) == s
  {
    StripProtocolIdentity(s);
    JsString.TrimOfTrimmed(s);
  }

  /** Trimming one trailing space off text whose ends are not white space. */
  lemma TrimTrailingSpace(x: string)
    requires x != [] && !JsString.IsWhitespace(x[0]) && !JsString.IsWhitespace(x[|x| - 1])
    ensures JsString.Trim(x + " ") == x
  {
    var s := x + " ";
    assert s[0] == x[0];
    assert JsString.LeadingWhitespace(s) == 0;
    assert s[..|s| - 1] == x;
    assert JsString.EndBeforeTrailingWhitespace(x) == |x|;
    assert JsString.EndBeforeTrailingWhitespace(s) == |x|;
    assert s[0..] == s;
    assert s[..|x|] == x;
  }

  predicate NoLetterJ(s: string)
  {
    forall i | 0 <= i < |s| :: s[i] != 'j' && s[i] != 'J'
  }

  lemma DropAngle(c: char, s: string)
    requires IsAngle(c)
    ensures StripAngles([c] + s) == StripAngles(s)
  {
    assert ([c] + s)[0] == c;
    assert ([c] + s)[1..] == s;
  }

  lemma KeepClean(a: string, s: string)
    requires NoAngles(a)
    ensures StripAngles(a + s) == a + StripAngles(s)
  {
    StripAnglesAppend(a, s);
  }

  lemma ProtocolHasNoAngles(s: string)
    ensures StripAngles(Protocol + s) == Protocol + StripAngles(s)
  {
    assert NoAngles(Protocol);
    StripAnglesAppend(Protocol, s);
  }

  lemma ProtocolIsCut(s: string)
    ensures StripProtocol(Protocol + s) == StripProtocol(s)
  {
    StripProtocolCutsFront(Protocol, s);
  }

  /** The brackets of a tag pair around the protocol go; the rest stays. */
  lemma AnglesOfTagShape(open: string, inner: string, close: string, tail: string)
    requires NoAngles(open) && NoAngles(inner) && NoAngles(close) && NoAngles(tail)
    ensures StripAngles("<" + (open + (">" + (Protocol + (inner + ("<" + (close + (">" + tail))))))))
         == open + (Protocol + (inner + (close + tail)))
  {
    var s8 := ">" + tail;
    DropAngle('>', tail);
    var s7 := close + s8;
    KeepClean(close, s8);
    var s6 := "<" + s7;
    DropAngle('<', s7);
    var s5 := inner + s6;
    KeepClean(inner, s6);
    var s4 := Protocol + s5;
    ProtocolHasNoAngles(s5);
    var s3 := ">" + s4;
    DropAngle('>', s4);
    var s2 := open + s3;
    KeepClean(open, s3);
    DropAngle('<', s2);
  }

  /** Then the protocol between the kept pieces is cut out. */
  lemma ProtocolOfTagShape(open: string, kept: string)
    requires NoLetterJ(open) && NoLetterJ(kept)
    ensures StripProtocol(open + (Protocol + kept)) == open + kept
  {
    StripProtocolPassThrough(open, Protocol + kept);
    ProtocolIsCut(kept);
    StripProtocolPassThrough(kept, []);
    assert kept + [] == kept;
  }

  /** The shape of a tag pair wrapped around the protocol: the brackets
      go, the protocol goes, the tag names stay. */
  lemma SanitizeTagShape(open: string, inner: string, close: string, tail: string)
    requires NoAngles(open) && NoAngles(inner) && NoAngles(close) && NoAngles(tail)
    requires NoLetterJ(open) && NoLetterJ(inner + (close + tail))
    ensures SanitizeInput("<" + (open + (">" + (Protocol + (inner + ("<" + (close + (">" + tail))))))))
         == JsString.Trim(open + (inner + (close + tail)))
  {
    AnglesOfTagShape(open, inner, close, tail);
    ProtocolOfTagShape(open, inner + (close + tail));
  }

  const TagTestInput := "<script>javascript:alert(1)</script> Hello "

  lemma TagTestInputShape()
    ensures TagTestInput == "<" + ("script" + (">" + (Protocol + ("alert(1)" + ("<" + ("/script" + (">" + " Hello ")))))))
  {
    var back := "alert(1)</script> Hello ";
    TagTestBack();
    TagTestFront(back);
    assert TagTestInput == "<script>javascript:" + back;
  }

  lemma TagTestFront(x: string)
    ensures "<" + ("script" + (">" + (Protocol + x))) == "<script>javascript:" + x
  {
    assert "<" + ("script" + (">" + Protocol)) == "<script>javascript:";
  }

  lemma TagTestBack()
    ensures "alert(1)" + ("<" + ("/script" + (">" + " Hello "))) == "alert(1)</script> Hello "
  {
  }

  lemma TagTestPiecesHaveNoAngles()
    ensures NoAngles("script") && NoAngles("alert(1)") && NoAngles("/script") && NoAngles(" Hello ")
  {
  }

  lemma TagTestPiecesHaveNoJ()
    ensures NoLetterJ("script") && NoLetterJ("alert(1)" + ("/script" + " Hello "))
  {
  }

  lemma TagTestKeptText()
    ensures "script" + ("alert(1)" + ("/script" + " Hello ")) == "scriptalert(1)/script Hello" + " "
  {
  }

  lemma TagTestSanitizesToTrim(input: string, open: string, inner: string, close: string, tail: string)
    requires open == "script" && inner == "alert(1)" && close == "/script" && tail == " Hello "
    requires input == "<" + (open + (">" + (Protocol + (inner + ("<" + (close + (">" + tail)))))))
    ensures SanitizeInput(input) == JsString.Trim(open + (inner + (close + tail)))
  {
    TagTestPiecesHaveNoAngles();
    TagTestPiecesHaveNoJ();
    SanitizeTagShape(open, inner, close, tail);
  }

  lemma TagTestTrimsKeptText(open: string, inner: string, close: string, tail: string)
    requires open == "script" && inner == "alert(1)" && close == "/script" && tail == " Hello "
    ensures JsString.Trim(open + (inner + (close + tail))) == "scriptalert(1)/script Hello"
  {
    var x := "scriptalert(1)/script Hello";
    TagTestKeptText();
    assert open + (inner + (close + tail)) == x + " ";
    TrimTrailingSpace(x);
  }

  /** On the tag-laden input the repository's own test uses, the tag
      names survive: the result is `scriptalert(1)/script Hello`, not the
      `alert(1) Hello` that test expects. */
  lemma SanitizeKeepsTagNames(input: string)
    requires input == TagTestInput
    ensures SanitizeInput(input) == "scriptalert(1)/script Hello"
  {
    var open, inner, close, tail := "script", "alert(1)", "/script", " Hello ";
    TagTestInputShape();
    TagTestSanitizesToTrim(input, open, inner, close, tail);
    TagTestTrimsKeptText(open, inner, close, tail);
  }

  /** A run of characters none of which starts a match passes through. */
  lemma {:induction false} StripProtocolSkips(a: string, b: string)
    requires forall i | 0 <= i < |a| :: !MatchesAt(a + b, i)
    ensures StripProtocol(a + b) == a + StripProtocol(b)
    decreases |a|
  {
    if a == [] {
      assert a + b == b;
    } else {
      calc {
        StripProtocol(a + b);
      == { var s := a + b;
           assert !MatchesAt(s, 0);
           StripProtocolStep(s);
           assert s[0] == a[0] && s[1..] == a[1..] + b; }
        [a[0]] + StripProtocol(a[1..] + b);
      == { NoMatchInTail(a, b); StripProtocolSkips(a[1..], b); }
        [a[0]] + (a[1..] + StripProtocol(b));
      == { HeadThenRest(a, StripProtocol(b)); }
        a + StripProtocol(b);
      }
    }
  }

  /** Putting the first character back in front of the rest. */
  lemma HeadThenRest(a: string, x: string)
    requires a != []
    ensures [a[0]] + (a[1..] + x) == a + x
  {
    assert a == [a[0]] + a[1..];
  }

  /** One step of the scan past a character that starts no match. */
  lemma StripProtocolStep(s: string)
    requires s != [] && !MatchesAt(s, 0)
    ensures StripProtocol(s) == [s[0]] + StripProtocol(s[1..])
  {
  }

  lemma NoMatchInTail(a: string, b: string)
    requires a != [] && forall i | 0 <= i < |a| :: !MatchesAt(a + b, i)
    ensures forall i | 0 <= i < |a| - 1 :: !MatchesAt(a[1..] + b, i)
  {
    assert (a + b)[1..] == a[1..] + b;
    forall i | 0 <= i < |a| - 1
      ensures !MatchesAt(a[1..] + b, i)
    {
      if MatchesAt(a[1..] + b, i) {
        MatchShift(a + b, 1, i);
      }
    }
  }

  const NestedProtocolInput := "javajavascript:script:"

  lemma NestedInputShape()
    ensures NestedProtocolInput == "java" + (Protocol + "script:")
    ensures "java" + "script:" == Protocol
  {
  }

  /** No match starts inside `java` when a `j` follows it. */
  lemma JavaPrefixDoesNotMatch(head: string, rest: string)
    requires head == "java" && |rest| > 0 && rest[0] == 'j'
    ensures forall i | 0 <= i < |head| :: !MatchesAt(head + rest, i)
  {
    var s := head + rest;
    assert s[4] == 'j' && s[1] == 'a' && s[2] == 'v' && s[3] == 'a';
    assert JsString.LowerAscii(s[4]) != Protocol[4];
    assert JsString.LowerAscii(s[1]) != Protocol[0];
    assert JsString.LowerAscii(s[2]) != Protocol[0];
    assert JsString.LowerAscii(s[3]) != Protocol[0];
    forall i | 0 <= i < |head|
      ensures !MatchesAt(s, i)
    {
      if i == 0 {
        assert JsString.LowerAscii(s[0 + 4]) != Protocol[4];
      } else {
        assert JsString.LowerAscii(s[i + 0]) != Protocol[0];
      }
    }
  }

  lemma ProtocolStartsWithJ(s: string)
    ensures (Protocol + s)[0] == 'j'
    ensures NoAngles(Protocol)
  {
  }

  lemma JavaHasNoAngles(head: string)
    requires head == "java"
    ensures NoAngles(head)
  {
  }

  /** The brackets pass leaves the nested shape alone. */
  lemma AnglesOfNestedShape(head: string, tail: string)
    requires head == "java" && NoAngles(tail)
    ensures StripAngles(head + (Protocol + tail)) == head + (Protocol + tail)
  {
    JavaHasNoAngles(head);
    KeepClean(head, Protocol + tail);
    ProtocolHasNoAngles(tail);
  }

  /** The protocol pass cuts the inner occurrence only. */
  lemma ProtocolOfNestedShape(head: string, tail: string)
    requires head == "java" && NoLetterJ(tail)
    ensures StripProtocol(head + (Protocol + tail)) == head + tail
  {
    ProtocolStartsWithJ(tail);
    JavaPrefixDoesNotMatch(head, Protocol + tail);
    StripProtocolSkips(head, Protocol + tail);
    ProtocolIsCut(tail);
    StripProtocolPassThrough(tail, []);
    assert tail + [] == tail;
  }

  /** A protocol placed right after `java` is cut, and the text around it
      closes up. */
  lemma SanitizeNestedShape(head: string, tail: string)
    requires head == "java" && NoAngles(tail) && NoLetterJ(tail)
    ensures SanitizeInput(head + (Protocol + tail)) == JsString.Trim(head + tail)
  {
    AnglesOfNestedShape(head, tail);
    ProtocolOfNestedShape(head, tail);
  }

  lemma ProtocolIsTrimmed()
    ensures JsString.Trim(Protocol) == Protocol
  {
    assert !JsString.IsWhitespace(Protocol[0]) && !JsString.IsWhitespace(Protocol[|Protocol| - 1]);
    JsString.TrimOfTrimmed(Protocol);
  }

  lemma ProtocolMatchesItself()
    ensures HasProtocol(Protocol)
  {
    assert MatchesAt(Protocol, 0);
  }

  /** One scan is not enough: cutting the inner occurrence out of
      `javajavascript:script:` joins the pieces around it into a fresh
      `javascript:`, which the sanitised text still holds. */
  lemma NestedProtocolSurvives(input: string)
    requires input == NestedProtocolInput
    ensures SanitizeInput(input) == Protocol
    ensures HasProtocol(SanitizeInput(input))
  {
    var head, tail := "java", "script:";
    NestedInputShape();
    TailIsPlain(tail);
    SanitizeNestedShape(head, tail);
    ProtocolIsTrimmed();
    ProtocolMatchesItself();
  }

  lemma TailIsPlain(tail: string)
    requires tail == "script:"
    ensures NoAngles(tail) && NoLetterJ(tail)
  {
  }

  /** Position of the first `c` in `s`, if any. */
  function IndexOf(s: string, c: char): (k: Option<nat>)
    ensures k.Some? ==> k.value < |s| && s[k.value] == c && forall j | 0 <= j < k.value :: s[j] != c
    ensures k.None? ==> forall j | 0 <= j < |s| :: s[j] != c
  {
    if s == [] then None
    else if s[0] == c then Some(0)
    else
      match IndexOf(s[1..], c)
      case None => None
      case Some(j) => Some(j + 1)
  }

  /** `replace(/<[^>]*>/g, '')`: every `<` that has a `>` after it is cut
      out together with everything up to and including the first such
      `>`; a `<` with no `>` after it stays. */
  function StripTags(s: string): (r: string)
    ensures |r| <= |s|
    ensures multiset(r) <= multiset(s)
    decreases |s|
  {
    if s == [] then []
    else if s[0] == '<' && IndexOf(s[1..], '>').Some? then
      var k := IndexOf(s[1..], '>').value + 2;
      assert s == s[..k] + s[k..];
      StripTags(s[k..])
    else
      assert s == [s[0]] + s[1..];
      [s[0]] + StripTags(s[1..])
  }

  lemma {:induction false} StripTagsPassThrough(a: string, b: string)
    requires forall i | 0 <= i < |a| :: a[i] != '<'
    ensures StripTags(a + b) == a + StripTags(b)
    decreases |a|
  {
    if a == [] {
      assert a + b == b;
    } else {
      calc {
        StripTags(a + b);
      == { var s := a + b;
           assert s[0] == a[0] && s[0] != '<' && s[1..] == a[1..] + b; }
        [a[0]] + StripTags(a[1..] + b);
      == { assert forall i | 0 <= i < |a| - 1 :: a[1..][i] == a[i + 1];
           StripTagsPassThrough(a[1..], b); }
        [a[0]] + (a[1..] + StripTags(b));
      == { HeadThenRest(a, StripTags(b)); }
        a + StripTags(b);
      }
    }
  }

  /** A tag at the front is cut out whole. */
  lemma StripTagsCutsTag(body: string, b: string)
    requires forall i | 0 <= i < |body| :: body[i] != '>'
    ensures StripTags("<" + (body + (">" + b))) == StripTags(b)
  {
    var t := body + (">" + b);
    var s := "<" + t;
    assert s[1..] == t;
    IndexOfFirst(body, ">" + b, '>');
    StripTagsAtTag(s);
    assert t[|body| + 1..] == b;
    assert s[|body| + 2..] == t[|body| + 1..];
  }

  /** One step of the tag scan at a `<` that has a `>` after it. */
  lemma StripTagsAtTag(s: string)
    requires s != [] && s[0] == '<' && IndexOf(s[1..], '>').Some?
    ensures StripTags(s) == StripTags(s[IndexOf(s[1..], '>').value + 2..])
  {
  }

  /** The first `c` in `x + y` is in `y` when `x` holds none and `y`
      starts with one. */
  lemma IndexOfFirst(x: string, y: string, c: char)
    requires forall j | 0 <= j < |x| :: x[j] != c
    requires y != [] && y[0] == c
    ensures IndexOf(x + y, c) == Some(|x|)
  {
    var s := x + y;
    assert s[|x|] == c;
    assert forall j | 0 <= j < |x| :: s[j] == x[j];
  }

  /** Repeats the protocol scan until no occurrence is left; each round
      that changes anything shortens the text. */
  function StripProtocolFully(s: string): (r: string)
    ensures !HasProtocol(r)
    ensures |r| <= |s|
    ensures multiset(r) <= multiset(s)
    decreases |s|
  {
    if HasProtocol(s) then
      StripProtocolShrinks(s);
      StripProtocolFully(StripProtocol(s))
    else s
  }

  /** A piece of text without the protocol has no protocol in any slice. */
  lemma NoProtocolInSlice(s: string, a: nat, b: nat)
    requires a <= b <= |s| && !HasProtocol(s)
    ensures !HasProtocol(s[a..b])
  {
    if HasProtocol(s[a..b]) {
      var i :| 0 <= i <= |s[a..b]| - |Protocol| && MatchesAt(s[a..b], i);
      forall k | 0 <= k < |Protocol|
        ensures JsString.LowerAscii(s[a + i + k]) == Protocol[k]
      {
        assert s[a..b][i + k] == s[a + i + k];
      }
      assert MatchesAt(s, a + i);
    }
  }

  lemma TrimKeepsNoProtocol(s: string)
    requires !HasProtocol(s)
    ensures !HasProtocol(JsString.Trim(s))
  {
    var a := JsString.LeadingWhitespace(s);
    var t := s[a..];
    JsString.TrimUnfold(s);
    NoProtocolInSlice(s, a, |s|);
    assert s[a..|s|] == t;
    NoProtocolInSlice(t, 0, JsString.EndBeforeTrailingWhitespace(t));
  }

  /** The sanitiser the comments and the test describe: whole tags are
      removed, stray brackets after them, and the protocol until none is
      left; then the ends are trimmed. */
  function SanitizeMarkup(input: string): (r: string)
    ensures NoAngles(r)
    ensures !HasProtocol(r)
    ensures |r| <= |input|
    ensures r == [] || (!JsString.IsWhitespace(r[0]) && !JsString.IsWhitespace(r[|r| - 1]))
  {
    var angled := StripAngles(StripTags(input));
    var cut := StripProtocolFully(angled);
    NoAnglesSurvive(angled, cut);
    var r := JsString.Trim(cut);
    NoAnglesSurvive(cut, r);
    TrimKeepsNoProtocol(cut);
    r
  }

  lemma ProtocolHasNoOpenAngle(s: string)
    ensures StripTags(Protocol + s) == Protocol + StripTags(s)
  {
    assert NoAngles(Protocol);
    StripTagsPassThrough(Protocol, s);
  }

  /** Whole tags around the protocol are cut, with their names. */
  lemma TagsOfTagShape(open: string, inner: string, close: string, tail: string)
    requires NoAngles(open) && NoAngles(inner) && NoAngles(close) && NoAngles(tail)
    ensures StripTags("<" + (open + (">" + (Protocol + (inner + ("<" + (close + (">" + tail))))))))
         == Protocol + (inner + tail)
  {
    var closing := "<" + (close + (">" + tail));
    StripTagsCutsTag(open, Protocol + (inner + closing));
    ProtocolHasNoOpenAngle(inner + closing);
    StripTagsPassThrough(inner, closing);
    StripTagsCutsTag(close, tail);
    StripTagsPassThrough(tail, []);
    assert tail + [] == tail;
  }

  /** Text without `j` or `J` cannot hold the protocol. */
  lemma NoLetterJNoProtocol(s: string)
    requires NoLetterJ(s)
    ensures !HasProtocol(s)
  {
    forall i | 0 <= i <= |s| - |Protocol|
      ensures !MatchesAt(s, i)
    {
      assert JsString.LowerAscii(s[i + 0]) != Protocol[0];
    }
  }

  /** Text without a colon cannot hold the protocol, which ends in one. */
  lemma NoColonNoProtocol(s: string)
    requires forall i | 0 <= i < |s| :: s[i] != ':'
    ensures !HasProtocol(s)
  {
    forall i | 0 <= i <= |s| - |Protocol|
      ensures !MatchesAt(s, i)
    {
      assert JsString.LowerAscii(s[i + 10]) != Protocol[10];
    }
  }

  lemma ProtocolAtFront(s: string)
    ensures HasProtocol(Protocol + s)
  {
    assert forall k | 0 <= k < |Protocol| :: (Protocol + s)[k] == Protocol[k];
    assert MatchesAt(Protocol + s, 0);
  }

  /** The repeated protocol pass on the protocol followed by plain text. */
  lemma ProtocolFullyOfFront(kept: string)
    requires NoLetterJ(kept)
    ensures StripProtocolFully(Protocol + kept) == kept
  {
    ProtocolAtFront(kept);
    ProtocolIsCut(kept);
    StripProtocolPassThrough(kept, []);
    assert kept + [] == kept;
    NoLetterJNoProtocol(kept);
  }

  /** The corrected sanitiser on a tag pair wrapped around the protocol:
      only the text between and after the tags remains. */
  lemma SanitizeMarkupTagShape(open: string, inner: string, close: string, tail: string)
    requires NoAngles(open) && NoAngles(inner) && NoAngles(close) && NoAngles(tail)
    requires NoLetterJ(inner + tail)
    ensures SanitizeMarkup("<" + (open + (">" + (Protocol + (inner + ("<" + (close + (">" + tail))))))))
         == JsString.Trim(inner + tail)
  {
    TagsOfTagShape(open, inner, close, tail);
    ProtocolHasNoAngles(inner + tail);
    KeepClean(inner, tail);
    ProtocolFullyOfFront(inner + tail);
  }

  lemma TagTestInnerText()
    ensures NoLetterJ("alert(1)" + " Hello ")
    ensures "alert(1)" + " Hello " == "alert(1) Hello" + " "
  {
  }

  lemma TagTestInnerTrims(inner: string, tail: string)
    requires inner == "alert(1)" && tail == " Hello "
    ensures JsString.Trim(inner + tail) == "alert(1) Hello"
  {
    TagTestInnerText();
    TrimTrailingSpace("alert(1) Hello");
  }

  /** The corrected sanitiser gives the test's expected `alert(1) Hello`. */
  lemma SanitizeMarkupOnTestInput(input: string)
    requires input == TagTestInput
    ensures SanitizeMarkup(input) == "alert(1) Hello"
  {
    var open, inner, close, tail := "script", "alert(1)", "/script", " Hello ";
    TagTestInputShape();
    TagTestMarkupToTrim(input, open, inner, close, tail);
    TagTestInnerTrims(inner, tail);
  }

  lemma TagTestMarkupToTrim(input: string, open: string, inner: string, close: string, tail: string)
    requires open == "script" && inner == "alert(1)" && close == "/script" && tail == " Hello "
    requires input == "<" + (open + (">" + (Protocol + (inner + ("<" + (close + (">" + tail)))))))
    ensures SanitizeMarkup(input) == JsString.Trim(inner + tail)
  {
    TagTestPiecesHaveNoAngles();
    TagTestInnerText();
    SanitizeMarkupTagShape(open, inner, close, tail);
  }

  /** On text that holds neither a bracket nor the protocol, the corrected
      sanitiser and the one as written agree: both only trim. */
  lemma SanitizersAgreeOnPlainText(s: string)
    requires NoAngles(s) && !HasProtocol(s)
    ensures SanitizeMarkup(s) == SanitizeInput(s) == JsString.Trim(s)
  {
    StripTagsPassThrough(s, []);
    assert s + [] == s;
    StripProtocolIdentity(s);
  }

  /** `n` consecutive characters from `first` on. */
  function CharRange(first: char, n: nat): (r: string)
    requires first as int + n <= 0xD800
    ensures |r| == n
    ensures forall i | 0 <= i < n :: r[i] as int == first as int + i
  {
    seq(n, i requires 0 <= i < n => (first as int + i) as char)
  }

  /** The sixty-two characters an identifier is drawn from: `A` to `Z`,
      `a` to `z`, `0` to `9`, in that order. */
  const Alphabet: string := CharRange('A', 26) + CharRange('a', 26) + CharRange('0', 10)

  predicate IsAsciiAlphanumeric(c: char)
  {
    ('A' <= c <= 'Z') || ('a' <= c <= 'z') || ('0' <= c <= '9')
  }

  /** The alphabet holds exactly the ASCII letters and digits, which is
      what `/^[A-Za-z0-9]+$/` accepts. */
  lemma AlphabetIsAlphanumeric(c: char)
    ensures c in Alphabet <==> IsAsciiAlphanumeric(c)
  {
    var upper, lower, digits := CharRange('A', 26), CharRange('a', 26), CharRange('0', 10);
    assert Alphabet == upper + lower + digits;
    if c in Alphabet {
      var k :| 0 <= k < |Alphabet| && Alphabet[k] == c;
      if k < 26 {
        assert Alphabet[k] == upper[k];
      } else if k < 52 {
        assert Alphabet[k] == lower[k - 26];
      } else {
        assert Alphabet[k] == digits[k - 52];
      }
    }
    if 'A' <= c <= 'Z' {
      assert Alphabet[c as int - 'A' as int] == c;
    } else if 'a' <= c <= 'z' {
      assert Alphabet[26 + c as int - 'a' as int] == c;
    } else if '0' <= c <= '9' {
      assert Alphabet[52 + c as int - '0' as int] == c;
    }
  }

  /** How often `for (let i = 0; i < length; i++)` runs: the least whole
      number not below `length`, and none for a length that is not
      positive. */
  function Iterations(length: real): (n: nat)
    ensures n == 0 <==> length <= 0.0
    ensures n > 0 ==> (n - 1) as real < length <= n as real
  {
    if length <= 0.0 then 0 else -((-length).Floor)
  }

  /** `generateSecureId(length = 16)`: one character of the sixty-two
      letters and digits per round, each picked by a fresh draw in [0, 1). */
  method GenerateSecureId(length: Option<real>) returns (id: string)
    ensures |id| == Iterations(length.GetOr(16.0))
    ensures forall i | 0 <= i < |id| :: IsAsciiAlphanumeric(id[i])
  {
    var len := length.GetOr(16.0);
    var n := Iterations(len);
    id := [];
    var i := 0;
    while (i as real) < len
      invariant 0 <= i <= n && |id| == i
      invariant forall j | 0 <= j < |id| :: IsAsciiAlphanumeric(id[j])
      decreases n - i
    {
      var draw: real :| 0.0 <= draw < 1.0;
      var k := (draw * (|Alphabet| as real)).Floor;
      AlphabetIsAlphanumeric(Alphabet[k]);
      id := id + [Alphabet[k]];
      i := i + 1;
    }
  }
}
