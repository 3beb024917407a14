/** The avatar of `src/components/common/Avatar.tsx`: its size map, the
    initials it derives from a name, and the choice between the image and
    the initials fallback. Upper-casing is ASCII only. */
module Avatar {
  import opened Wrappers
  import JsString

  datatype Size = Small | Medium | Large

  /** The size map, with small the default size. */
  function Dimension(size: Option<Size>): (d: nat)
    ensures size.None? || size == Some(Small) <==> d == 28
    ensures size == Some(Medium) <==> d == 40
    ensures size == Some(Large) <==> d == 56
  {
    match size.GetOr(Small)
    case Small => 28
    case Medium => 40
    case Large => 56
  }

  /** `s.split(' ')`: the pieces between single spaces, empty pieces
      included; there is always at least one piece. */
  function Split(s: string): (parts: seq<string>)
    ensures |parts| >= 1
    ensures forall k | 0 <= k < |parts| :: ' ' !in parts[k]
    decreases |s|
  {
    if s == [] then [[]]
    else if s[0] == ' ' then [[]] + Split(s[1..])
    else
      var rest := Split(s[1..]);
      [[s[0]] + rest[0]] + rest[1..]
  }

  /** Joining the pieces back with single spaces restores the text. */
  function Join(parts: seq<string>): string
    requires |parts| >= 1
    decreases |parts|
  {
    if |parts| == 1 then parts[0] else parts[0] + " " + Join(parts[1..])
  }

  lemma {:induction false} SplitJoin(s: string)
    ensures Join(Split(s)) == s
    decreases |s|
  {
    if s != [] {
      var rest := Split(s[1..]);
      SplitJoin(s[1..]);
      if s[0] == ' ' {
        assert ([[]] + rest)[1..] == rest;
        assert s == [] + " " + s[1..];
      } else {
        var parts := [[s[0]] + rest[0]] + rest[1..];
        assert parts[1..] == rest[1..];
        if |rest| == 1 {
          assert s == [s[0]] + rest[0];
        } else {
          assert Join(rest) == rest[0] + " " + Join(rest[1..]);
          assert s == [s[0]] + rest[0] + " " + Join(rest[1..]);
        }
      }
    }
  }

  /** `.map(p => p[0]).join('')`: the first character of every piece; an
      empty piece gives `undefined`, which joins as nothing. */
  function FirstChars(parts: seq<string>): string
    decreases |parts|
  {
    if parts == [] then []
    else (if parts[0] != [] then [parts[0][0]] else []) + FirstChars(parts[1..])
  }

  /** An independent description of the same characters: every non-space
      character that starts the text or follows a space. */
  function WordStarts(s: string, atStart: bool): string
    decreases |s|
  {
    if s == [] then []
    else if s[0] == ' ' then WordStarts(s[1..], true)
    else (if atStart then [s[0]] else []) + WordStarts(s[1..], false)
  }

  lemma {:induction false} FirstCharsAreWordStarts(s: string)
    ensures FirstChars(Split(s)) == WordStarts(s, true)
    ensures FirstChars(Split(s)[1..]) == WordStarts(s, false)
    decreases |s|
  {
    if s != [] {
      var rest := Split(s[1..]);
      FirstCharsAreWordStarts(s[1..]);
      if s[0] == ' ' {
        var parts := [[]] + rest;
        assert parts[0] == [] && parts[1..] == rest;
      } else {
        var head: string := [s[0]] + rest[0];
        var parts := [head] + rest[1..];
        assert parts[0] == head && parts[1..] == rest[1..];
        assert head[0] == s[0];
      }
    }
  }

  /** Word starts are empty exactly when the text is spaces only. */
  lemma {:induction false} NoWordStartsMeansSpaces(s: string)
    ensures WordStarts(s, true) == [] <==> forall i | 0 <= i < |s| :: s[i] == ' '
    decreases |s|
  {
    if s != [] && s[0] == ' ' {
      NoWordStartsMeansSpaces(s[1..]);
      assert forall i | 0 <= i < |s| - 1 :: s[1..][i] == s[i + 1];
      if forall i | 0 <= i < |s| - 1 :: s[1..][i] == ' ' {
        assert forall i | 1 <= i < |s| :: s[i] == s[1..][i - 1];
      }
    }
  }

  /** Inside a word, the rest of the word adds no start. */
  lemma {:induction false} RestOfWordSkipped(x: string, t: string)
    requires ' ' !in x
    ensures WordStarts(x + t, false) == WordStarts(t, false)
    decreases |x|
  {
    if x != [] {
      assert x[0] in x;
      assert (x + t)[0] == x[0] && (x + t)[1..] == x[1..] + t;
      assert ' ' !in x[1..] by {
        forall i | 0 <= i < |x| - 1 ensures x[1..][i] != ' ' {
          assert x[1..][i] == x[i + 1];
        }
      }
      RestOfWordSkipped(x[1..], t);
    } else {
      assert x + t == t;
    }
  }

  function Min(a: nat, b: nat): nat
  {
    if a <= b then a else b
  }

  /** The initials: the first two word starts, upper-cased. */
  function Initials(name: string): (r: string)
    ensures |r| <= 2
    ensures var starts := WordStarts(name, true);
      |r| == Min(2, |starts|) && forall i | 0 <= i < |r| :: r[i] == JsString.UpperAscii(starts[i])
  {
    FirstCharsAreWordStarts(name);
    var joined := FirstChars(Split(name));
    JsString.ToUpper(joined[..Min(2, |joined|)])
  }

  /** What the avatar renders: the image, or the initials box with its
      text, accessibility label and font size. */
  datatype Rendered =
    | ImageView(uri: string, dimension: nat)
    | Fallback(dimension: nat, text: string, accessibilityLabel: string, fontSize: real)

  function MaxReal(a: real, b: real): real
  {
    if a >= b then a else b
  }

  /** The component. A non-empty image URI wins and no initials are shown;
      otherwise the initials, or '?' when there are none, which is exactly
      when the name is spaces only or missing. */
  function Render(imageUri: Option<string>, name: Option<string>, size: Option<Size>): (v: Rendered)
    ensures v.dimension == Dimension(size)
    ensures v.ImageView? <==> JsString.IsTruthy(imageUri)
    ensures v.ImageView? ==> v.uri == imageUri.value
    ensures v.Fallback? ==>
      && v.text == (if forall i | 0 <= i < |name.GetOr("")| :: name.GetOr("")[i] == ' ' then "?"
                    else Initials(name.GetOr("")))
      && v.fontSize >= 12.0
  {
    var n := name.GetOr("");
    var dimension := Dimension(size);
    var initials := Initials(n);
    NoWordStartsMeansSpaces(n);
    if JsString.IsTruthy(imageUri) then ImageView(imageUri.value, dimension)
    else
      Fallback(dimension, if initials != [] then initials else "?",
               "Avatar " + n, MaxReal(12.0, dimension as real / 2.8))
  }

  /** A first word followed by a space and a second word gives the two
      words' first letters, upper-cased, whatever follows the second. */
  lemma TwoWordInitials(first: string, last: string)
    requires first != [] && ' ' !in first
    requires last != [] && last[0] != ' '
    ensures Initials(first + " " + last) == [JsString.UpperAscii(first[0]), JsString.UpperAscii(last[0])]
  {
    var s := first + " " + last;
    assert s[0] == first[0] && s[1..] == first[1..] + (" " + last);
    assert ' ' !in first[1..] by {
      forall i | 0 <= i < |first| - 1 ensures first[1..][i] != ' ' {
        assert first[1..][i] == first[i + 1];
      }
    }
    RestOfWordSkipped(first[1..], " " + last);
    assert (" " + last)[0] == ' ' && (" " + last)[1..] == last;
    var starts := WordStarts(s, true);
    assert starts == [first[0]] + ([last[0]] + WordStarts(last[1..], false));
    assert starts[0] == first[0] && starts[1] == last[0];
  }

  /** Only the medium and large sizes get a font larger than the minimum. */
  lemma FontSizes(name: Option<string>)
    ensures Render(None, name, None).fontSize == 12.0
    ensures Render(None, name, Some(Large)).fontSize == 20.0
  {
  }
}
