/**
 * Recovering the JSON payload from the generator's reply text: every
 * "```json" marker with the white space after it is deleted, then every
 * "```" marker with the white space after it, the rest is trimmed, and the
 * text from the first `{` to the last `}` is cut out.
 */
module PayloadExtraction {
  import opened Wrappers
  import opened JsString

  const JsonFence := "```json"
  const Fence := "```"

  /** The message of the error thrown when no brace pair is found. */
  const NoJsonFound := "No valid JSON found in response"

  /** A global `replace` of `marker` followed by `\s` repeated, with the empty
    * string: scanning left to right, each occurrence
    * of `marker` is deleted together with the white space that follows it,
    * and scanning resumes after what was deleted. */
  function StripMarker(s: string, marker: string): (r: string)
    requires marker != []
    ensures |r| <= |s|
    decreases |s|
  {
    if s == [] then []
    else if |marker| <= |s| && s[..|marker|] == marker then
      StripMarker(TrimStart(s[|marker|..]), marker)
    else
      [s[0]] + StripMarker(s[1..], marker)
  }

  /** Deleting markers only ever removes characters: every character left
    * was already in the text. */
  lemma {:induction false} StripMarkerKeepsOnlyInput(s: string, marker: string, c: char)
    requires marker != []
    requires c in StripMarker(s, marker)
    ensures c in s
    decreases |s|
  {
    if |marker| <= |s| && s[..|marker|] == marker {
      var t := TrimStart(s[|marker|..]);
      StripMarkerKeepsOnlyInput(t, marker, c);
      assert c in s[|s| - |t|..];
    } else if c != s[0] {
      StripMarkerKeepsOnlyInput(s[1..], marker, c);
    }
  }

  /** Text free of the marker's first character passes through untouched and
    * does not disturb the scan of what follows it. */
  lemma {:induction false} StripMarkerSkipsPlainText(a: string, b: string, marker: string)
    requires marker != [] && marker[0] !in a
    ensures StripMarker(a + b, marker) == a + StripMarker(b, marker)
    decreases |a|
  {
    if a == [] {
      assert a + b == b;
    } else {
      var x := StripMarker(b, marker);
      assert StripMarker(a + b, marker) == [a[0]] + StripMarker(a[1..] + b, marker) by {
        assert (a + b)[0] == a[0] != marker[0];
        if |marker| <= |a + b| {
          assert (a + b)[..|marker|][0] == a[0];
        }
        assert (a + b)[1..] == a[1..] + b;
      }
      StripMarkerSkipsPlainText(a[1..], b, marker);
      ConcatAssoc([a[0]], a[1..], x);
      assert [a[0]] + a[1..] == a;
    }
  }

  /** Text in which the marker does not occur is left as it is, stray
    * backticks included. */
  lemma {:induction false} StripMarkerNoMarker(s: string, marker: string)
    requires marker != [] && !Includes(s, marker)
    ensures StripMarker(s, marker) == s
    decreases |s|
  {
    if s != [] {
      assert !OccursAt(s, marker, 0);
      if |marker| <= |s| {
        assert s[0..|marker|] == s[..|marker|];
      }
      forall i
        ensures !OccursAt(s[1..], marker, i)
      {
        assert !OccursAt(s, marker, i + 1);
        if 0 <= i && i + |marker| <= |s| - 1 {
          assert s[1..][i..i + |marker|] == s[i + 1..i + 1 + |marker|];
        }
      }
      StripMarkerNoMarker(s[1..], marker);
      assert [s[0]] + s[1..] == s;
    }
  }

  /** A prefix at none of whose positions the marker starts passes through
    * untouched, stray backticks included, and does not disturb the scan of
    * what follows it. With StripMarkerAtMarker this fixes every step of the
    * left-to-right replace. */
  lemma {:induction false} StripMarkerSkipsNoStart(a: string, b: string, marker: string)
    requires marker != []
    requires forall i :: 0 <= i < |a| ==> !OccursAt(a + b, marker, i)
    ensures StripMarker(a + b, marker) == a + StripMarker(b, marker)
    decreases |a|
  {
    if a == [] {
      assert a + b == b;
    } else {
      var s := a + b;
      assert !OccursAt(s, marker, 0);
      if |marker| <= |s| {
        assert s[0..|marker|] == s[..|marker|];
      }
      assert s[0] == a[0];
      assert s[1..] == a[1..] + b;
      forall i | 0 <= i < |a[1..]|
        ensures !OccursAt(a[1..] + b, marker, i)
      {
        assert !OccursAt(s, marker, i + 1);
        if i + |marker| <= |s| - 1 {
          assert (a[1..] + b)[i..i + |marker|] == s[i + 1..i + 1 + |marker|];
        }
      }
      StripMarkerSkipsNoStart(a[1..], b, marker);
      ConcatAssoc([a[0]], a[1..], StripMarker(b, marker));
      assert [a[0]] + a[1..] == a;
    }
  }

  /** A backtick of inline code before a closing fence is kept: only the
    * fence itself is removed. */
  lemma InlineBacktickKept()
    ensures StripMarker("`x```", Fence) == "`x"
  {
    var a := "`x";
    forall i | 0 <= i < |a|
      ensures !OccursAt(a + Fence, Fence, i)
    {
      assert (a + Fence)[1] == 'x' != Fence[1 - i];
    }
    StripMarkerSkipsNoStart(a, Fence, Fence);
    assert a + Fence == "`x```";
    assert TrimStart(Fence[|Fence|..]) == [];
  }

  /** Text that holds no backtick is left as it is by both passes. */
  lemma StripMarkerIdentity(s: string, marker: string)
    requires marker != [] && marker[0] !in s
    ensures StripMarker(s, marker) == s
  {
    StripMarkerSkipsPlainText(s, [], marker);
    assert s + [] == s;
  }

  /** The first line of the extraction: both marker passes, then `trim()`. */
  function CleanResponse(text: string): (r: string)
    ensures |r| <= |text|
    ensures r != [] ==> !IsJsSpace(r[0]) && !IsJsSpace(r[|r| - 1])
  {
    Trim(StripMarker(StripMarker(text, JsonFence), Fence))
  }

  /** Cleaning only ever removes characters. */
  lemma CleanKeepsOnlyInput(text: string, c: char)
    requires c in CleanResponse(text)
    ensures c in text
  {
    var pass1 := StripMarker(text, JsonFence);
    var pass2 := StripMarker(pass1, Fence);
    TrimKeepsOnlyInput(pass2, c);
    StripMarkerKeepsOnlyInput(pass1, Fence, c);
    StripMarkerKeepsOnlyInput(text, JsonFence, c);
  }

  /** `indexOf('{')`, `lastIndexOf('}')`, the missing-brace error and
    * `substring(jsonStart, jsonEnd + 1)`, applied to the cleaned text. */
  function SliceBraces(cleaned: string): (r: Result<string, string>)
    ensures r.Err? <==> '{' !in cleaned || '}' !in cleaned
    ensures r.Err? ==> r.error == NoJsonFound
    ensures r.Ok? ==> |r.value| <= |cleaned|
  {
    var jsonStart := IndexOf(cleaned, '{');
    var jsonEnd := LastIndexOf(cleaned, '}');
    if jsonStart == -1 || jsonEnd == -1 then Err(NoJsonFound)
    else Ok(Substring(cleaned, jsonStart, jsonEnd + 1))
  }

  /** The payload text cut out of a reply, or the extraction error, which is
    * raised exactly when the cleaned reply lacks one of the two braces. */
  function ExtractPayload(text: string): (r: Result<string, string>)
    ensures r.Err? <==> '{' !in CleanResponse(text) || '}' !in CleanResponse(text)
    ensures r.Err? ==> r.error == NoJsonFound
    ensures r.Ok? ==> |r.value| <= |text|
  {
    SliceBraces(CleanResponse(text))
  }

  /** When the first `{` comes no later than the last `}`, the payload is the
    * region between them, inclusive: it opens with `{`, closes with `}`, and
    * nothing before it holds a `{` or after it a `}`. */
  lemma {:induction false} PayloadIsBraceRegion(cleaned: string)
    requires '{' in cleaned && '}' in cleaned
    requires IndexOf(cleaned, '{') <= LastIndexOf(cleaned, '}')
    ensures var a := IndexOf(cleaned, '{');
      var b := LastIndexOf(cleaned, '}');
      && SliceBraces(cleaned) == Ok(cleaned[a..b + 1])
      && cleaned[a..b + 1][0] == '{'
      && cleaned[a..b + 1][b - a] == '}'
      && '{' !in cleaned[..a]
      && '}' !in cleaned[b + 1..]
  {
    var a := IndexOf(cleaned, '{');
    var b := LastIndexOf(cleaned, '}');
    BraceRegionCut(cleaned, a, b);
    BraceRegionEnds(cleaned, a, b);
    BraceRegionOutside(cleaned, a, b);
  }

  /** The cut taken when the first `{` at `a` precedes the last `}` at `b`. */
  lemma BraceRegionCut(cleaned: string, a: int, b: int)
    requires a == IndexOf(cleaned, '{') && b == LastIndexOf(cleaned, '}')
    requires 0 <= a <= b
    ensures SliceBraces(cleaned) == Ok(cleaned[a..b + 1])
  {
  }

  /** Nothing before the first `{` is a `{`, and nothing after the last `}`
    * is a `}`. */
  lemma BraceRegionOutside(cleaned: string, a: int, b: int)
    requires a == IndexOf(cleaned, '{') && b == LastIndexOf(cleaned, '}')
    requires 0 <= a <= b
    ensures '{' !in cleaned[..a] && '}' !in cleaned[b + 1..]
  {
    var before := cleaned[..a];
    var after := cleaned[b + 1..];
    forall j | 0 <= j < |before|
      ensures before[j] != '{'
    {
      assert before[j] == cleaned[j];
    }
    forall j | 0 <= j < |after|
      ensures after[j] != '}'
    {
      assert after[j] == cleaned[b + 1 + j];
    }
  }

  /** The region from `a` to `b` opens with `{` and closes with `}`. */
  lemma BraceRegionEnds(cleaned: string, a: int, b: int)
    requires a == IndexOf(cleaned, '{') && b == LastIndexOf(cleaned, '}')
    requires 0 <= a <= b
    ensures cleaned[a..b + 1][0] == '{' && cleaned[a..b + 1][b - a] == '}'
  {
  }

  /** The arguments of `substring` are swapped when the last `}` comes before
    * the first `{`: the cut is then the text strictly between the two, which
    * neither opens with `{` nor closes with `}`. */
  lemma {:induction false} SwappedRegion(cleaned: string)
    requires '{' in cleaned && '}' in cleaned
    requires IndexOf(cleaned, '{') > LastIndexOf(cleaned, '}')
    ensures var a := IndexOf(cleaned, '{');
      var b := LastIndexOf(cleaned, '}');
      && SliceBraces(cleaned) == Ok(cleaned[b + 1..a])
      && '{' !in cleaned[b + 1..a]
      && '}' !in cleaned[b + 1..a]
  {
    var a := IndexOf(cleaned, '{');
    var b := LastIndexOf(cleaned, '}');
    var m := cleaned[b + 1..a];
    assert SliceBraces(cleaned) == Ok(m);
    forall j | 0 <= j < |m|
      ensures m[j] != '{' && m[j] != '}'
    {
      assert m[j] == cleaned[b + 1 + j];
    }
  }

  /** Text without backticks that starts and ends with non-space characters
    * is its own cleaned text. */
  lemma CleanPlainText(s: string)
    requires s != [] && !IsJsSpace(s[0]) && !IsJsSpace(s[|s| - 1])
    requires '`' !in s
    ensures CleanResponse(s) == s
  {
    StripMarkerIdentity(s, JsonFence);
    StripMarkerIdentity(s, Fence);
    TrimAround([], s, []);
    assert [] + (s + []) == s;
  }

  /** Where the braces of "}" + m + "{" are found, for `m` without braces. */
  lemma SwappedBraces(m: string)
    requires '{' !in m && '}' !in m
    ensures IndexOf("}" + m + "{", '{') == |m| + 1
    ensures LastIndexOf("}" + m + "{", '}') == 0
  {
    var s := "}" + m + "{";
    assert s == "}" + (m + "{");
    forall j | 0 <= j < |m| + 1
      ensures s[j] != '{'
    {
      if j > 0 {
        assert s[j] == m[j - 1];
      }
    }
    IndexOfAt(s, '{', |m| + 1);
    forall j | 0 < j < |s|
      ensures s[j] != '}'
    {
      if j <= |m| {
        assert s[j] == m[j - 1];
      }
    }
    LastIndexOfAt(s, '}', 0);
  }

  /** The swap at work: a reply that closes a brace before opening one
    * yields the text between them, which is not a braced region at all. */
  lemma SwappedReply(m: string)
    requires '{' !in m && '}' !in m && '`' !in m
    ensures ExtractPayload("}" + m + "{") == Ok(m)
  {
    var s := "}" + m + "{";
    assert CleanResponse(s) == s by {
      assert s[0] == '}' && s[|s| - 1] == '{';
      assert '`' !in s;
      CleanPlainText(s);
    }
    SwappedBraces(m);
    assert s[1..|m| + 1] == m;
    SwappedRegion(s);
  }

  /** An instance of the swap: the reply "} x {" yields " x ". */
  lemma SwappedRegionExample(text: string)
    requires text == "} x {"
    ensures ExtractPayload(text) == Ok(" x ")
  {
    assert text == "}" + " x " + "{";
    SwappedReply(" x ");
  }

  /** Without a `{` in the reply there is nothing to extract. */
  lemma NoOpeningBraceFails(text: string)
    requires '{' !in text
    ensures ExtractPayload(text) == Err(NoJsonFound)
  {
    if '{' in CleanResponse(text) {
      CleanKeepsOnlyInput(text, '{');
    }
  }

  /** In `u + (p + v)`, the characters before `p` are those of `u`. */
  lemma CharsBefore(u: string, p: string, v: string, c: char)
    requires c !in u
    ensures forall j :: 0 <= j < |u| ==> (u + (p + v))[j] != c
  {
    forall j | 0 <= j < |u|
      ensures (u + (p + v))[j] != c
    {
      assert (u + (p + v))[j] == u[j];
    }
  }

  /** In `u + (p + v)`, the characters after `p` are those of `v`. */
  lemma CharsAfter(u: string, p: string, v: string, c: char)
    requires c !in v
    ensures forall j :: |u| + |p| <= j < |u + (p + v)| ==> (u + (p + v))[j] != c
  {
    forall j | |u| + |p| <= j < |u + (p + v)|
      ensures (u + (p + v))[j] != c
    {
      assert (u + (p + v))[j] == v[j - |u| - |p|];
    }
  }

  /** Locating the payload inside text whose surroundings hold no brace. */
  lemma BracesAround(u: string, p: string, v: string)
    requires p != [] && p[0] == '{' && p[|p| - 1] == '}'
    requires '{' !in u && '}' !in u && '{' !in v && '}' !in v
    ensures IndexOf(u + (p + v), '{') == |u|
    ensures LastIndexOf(u + (p + v), '}') == |u| + |p| - 1
    ensures SliceBraces(u + (p + v)) == Ok(p)
  {
    var s := u + (p + v);
    var a := |u|;
    var b := |u| + |p| - 1;
    assert s[a] == p[0] && s[b] == p[|p| - 1];
    CharsBefore(u, p, v, '{');
    IndexOfAt(s, '{', a);
    CharsAfter(u, p, v, '}');
    LastIndexOfAt(s, '}', b);
    BraceRegionCut(s, a, b);
    assert s[a..b + 1] == p;
  }

  /** The wrapping a generator adds despite instructions: prose, an opening
    * "```json" fence, the payload, a closing fence and more prose. */
  function Wrapped(pre: string, payload: string, post: string): string {
    pre + (JsonFence + ("\n" + (payload + ("\n" + (Fence + post)))))
  }

  /** A marker at the front is deleted with the white space after it. */
  lemma StripMarkerAtMarker(rest: string, marker: string)
    requires marker != []
    ensures StripMarker(marker + rest, marker) == StripMarker(TrimStart(rest), marker)
  {
    var s := marker + rest;
    assert s[..|marker|] == marker && s[|marker|..] == rest;
  }

  /** The opening fence goes together with the line break after it, and the
    * scan then runs through the payload unchanged. */
  lemma OpeningFenceDropped(payload: string, tail: string)
    requires payload != [] && payload[0] == '{' && '`' !in payload
    ensures StripMarker(JsonFence + ("\n" + (payload + ("\n" + tail))), JsonFence)
         == payload + ("\n" + StripMarker(tail, JsonFence))
  {
    var afterOpen := payload + ("\n" + tail);
    assert ("\n" + afterOpen)[1..] == afterOpen;
    assert TrimStart("\n" + afterOpen) == afterOpen;
    StripMarkerAtMarker("\n" + afterOpen, JsonFence);
    StripMarkerSkipsPlainText(payload, "\n" + tail, JsonFence);
    StripMarkerSkipsPlainText("\n", tail, JsonFence);
  }

  /** The first pass deletes the opening fence and the line break after it. */
  lemma FirstPass(pre: string, payload: string, post: string)
    requires payload != [] && payload[0] == '{'
    requires '`' !in pre && '`' !in payload
    ensures StripMarker(Wrapped(pre, payload, post), JsonFence)
         == pre + (payload + ("\n" + StripMarker(Fence + post, JsonFence)))
  {
    var fenced := JsonFence + ("\n" + (payload + ("\n" + (Fence + post))));
    StripMarkerSkipsPlainText(pre, fenced, JsonFence);
    OpeningFenceDropped(payload, Fence + post);
  }

  /** What the second pass leaves after the payload of a wrapped reply. */
  function WrappedTail(post: string): string {
    StripMarker(StripMarker(Fence + post, JsonFence), Fence)
  }

  /** After both passes the payload is followed by the line break before the
    * closing fence and by what is left of the fence and the prose after it. */
  lemma SecondPass(pre: string, payload: string, post: string)
    requires payload != [] && payload[0] == '{'
    requires '`' !in pre && '`' !in payload
    ensures StripMarker(StripMarker(Wrapped(pre, payload, post), JsonFence), Fence)
         == pre + (payload + ("\n" + WrappedTail(post)))
  {
    var y1 := StripMarker(Fence + post, JsonFence);
    FirstPass(pre, payload, post);
    StripMarkerSkipsPlainText(pre, payload + ("\n" + y1), Fence);
    StripMarkerSkipsPlainText(payload, "\n" + y1, Fence);
    StripMarkerSkipsPlainText("\n", y1, Fence);
  }

  /** After both passes and the trim, the payload sits whole between what is
    * left of the leading prose and of the closing fence with its prose. */
  lemma CleanedWrapped(pre: string, payload: string, post: string)
    requires payload != [] && payload[0] == '{' && payload[|payload| - 1] == '}'
    requires '`' !in pre && '`' !in payload
    ensures CleanResponse(Wrapped(pre, payload, post))
         == TrimStart(pre) + (payload + TrimEnd("\n" + WrappedTail(post)))
  {
    SecondPass(pre, payload, post);
    TrimAround(pre, payload, "\n" + WrappedTail(post));
  }

  /** The prose after the closing fence keeps no brace through both passes. */
  lemma WrappedTailBraceFree(post: string, c: char)
    requires c != '`' && c != '\n' && c !in post
    ensures c !in "\n" + WrappedTail(post)
  {
    var y1 := StripMarker(Fence + post, JsonFence);
    if c in WrappedTail(post) {
      StripMarkerKeepsOnlyInput(y1, Fence, c);
      StripMarkerKeepsOnlyInput(Fence + post, JsonFence, c);
      assert false;
    }
  }

  /** The remainders around the payload of a wrapped reply hold no brace. */
  lemma WrappedRemaindersBraceFree(pre: string, post: string)
    requires '{' !in pre && '}' !in pre && '{' !in post && '}' !in post
    ensures var u := TrimStart(pre);
      var v := TrimEnd("\n" + WrappedTail(post));
      '{' !in u && '}' !in u && '{' !in v && '}' !in v
  {
    forall c | c == '{' || c == '}'
      ensures c !in TrimStart(pre) && c !in TrimEnd("\n" + WrappedTail(post))
    {
      WrappedTailBraceFree(post, c);
      if c in TrimStart(pre) {
        TrimKeepsOnlyInput(pre, c);
      }
      if c in TrimEnd("\n" + WrappedTail(post)) {
        TrimKeepsOnlyInput("\n" + WrappedTail(post), c);
      }
    }
  }

  /** A wrapped payload is extracted exactly. */
  lemma WrappedExtraction(pre: string, payload: string, post: string)
    requires payload != [] && payload[0] == '{' && payload[|payload| - 1] == '}'
    requires '`' !in pre && '`' !in payload
    requires '{' !in pre && '}' !in pre && '{' !in post && '}' !in post
    ensures ExtractPayload(Wrapped(pre, payload, post)) == Ok(payload)
  {
    var u := TrimStart(pre);
    var v := TrimEnd("\n" + WrappedTail(post));
    CleanedWrapped(pre, payload, post);
    WrappedRemaindersBraceFree(pre, post);
    BracesAround(u, payload, v);
  }

  /** A bare payload without backticks is extracted exactly. */
  lemma BareExtraction(payload: string)
    requires payload != [] && payload[0] == '{' && payload[|payload| - 1] == '}'
    requires '`' !in payload
    ensures ExtractPayload(payload) == Ok(payload)
  {
    CleanPlainText(payload);
    assert [] + (payload + []) == payload;
    BracesAround([], payload, []);
  }

  /** Fences and surrounding prose do not change what is extracted: the
    * wrapped payload and the bare payload both yield exactly the payload. */
  lemma FencesAndProseIgnored(pre: string, payload: string, post: string)
    requires payload != [] && payload[0] == '{' && payload[|payload| - 1] == '}'
    requires '`' !in pre && '`' !in payload
    requires '{' !in pre && '}' !in pre && '{' !in post && '}' !in post
    ensures ExtractPayload(Wrapped(pre, payload, post)) == ExtractPayload(payload) == Ok(payload)
  {
    WrappedExtraction(pre, payload, post);
    BareExtraction(payload);
  }
}
