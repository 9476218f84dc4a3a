/** `clean_response` of llmapi.py: the reasoning a model wraps in
    `<think>...</think>` is removed from its answer, then any tag left alone,
    then the surrounding whitespace.

    The two regular-expression substitutions are written out as the scans the
    regular-expression engine performs: left to right, trying a match at each
    position and resuming after the end of each match, so matches never
    overlap and the replaced text is never scanned again. */
module Think {
  import opened Wrappers
  import opened Text

  const Open: string := "<think>"
  const Close: string := "</think>"

  lemma TagsHeadUnique()
    ensures HeadUnique(Open) && HeadUnique(Close)
  {
  }

  // ---------------------------------------------------------------------------
  // First pass: re.sub(r"<think>.*?</think>", "", text, flags=re.DOTALL)

  /** Deletes each `<think>` together with everything up to and including the
      first `</think>` after it. The lazy `.*?` with DOTALL matches any
      characters, newlines included, so the span ends at the first closing tag.
      A `<think>` with no `</think>` after it does not match and is kept; the
      scan then moves on by one character. */
  function RemoveSpans(s: string): (r: string)
    ensures |r| <= |s|
    decreases |s|
  {
    if s == [] then []
    else if StartsWith(s, Open) && Find(s, Close, |Open|).Some? then
      RemoveSpans(s[Find(s, Close, |Open|).value + |Close|..])
    else
      [s[0]] + RemoveSpans(s[1..])
  }

  /** The first pass only deletes characters. */
  lemma {:induction false} RemoveSpansSubseq(s: string)
    ensures IsSubseq(RemoveSpans(s), s)
    decreases |s|
  {
    if s != [] {
      if StartsWith(s, Open) && Find(s, Close, |Open|).Some? {
        var e := Find(s, Close, |Open|).value + |Close|;
        RemoveSpansSubseq(s[e..]);
        SubseqDropPrefix(RemoveSpans(s[e..]), s[..e], s[e..]);
        assert s[..e] + s[e..] == s;
      } else {
        RemoveSpansSubseq(s[1..]);
        SubseqCons(s[0], RemoveSpans(s[1..]), s[1..]);
        assert [s[0]] + s[1..] == s;
      }
    }
  }

  /** Text without an opening tag passes the first pass unchanged. */
  lemma {:induction false} RemoveSpansNoOpen(s: string)
    requires !Contains(s, Open)
    ensures RemoveSpans(s) == s
    decreases |s|
  {
    if s != [] {
      NotContainsNotStart(s, Open);
      NotContainsTail(s, Open);
      RemoveSpansNoOpen(s[1..]);
      assert [s[0]] + s[1..] == s;
    }
  }

  /** Text without a closing tag passes the first pass unchanged too: no
      `<think>` in it finds the end of its span. */
  lemma {:induction false} RemoveSpansNoClose(s: string)
    requires !Contains(s, Close)
    ensures RemoveSpans(s) == s
    decreases |s|
  {
    if s != [] {
      assert Find(s, Close, |Open|).None?;
      NotContainsTail(s, Close);
      RemoveSpansNoClose(s[1..]);
      assert [s[0]] + s[1..] == s;
    }
  }

  /** A span opened at the start ends with the first `</think>` after `mid`;
      the index just past it is returned. */
  lemma SpanEnd(mid: string, post: string) returns (j: nat)
    requires !Contains(mid, Close)
    ensures j == |Open| + |mid| + |Close|
    ensures Find(Open + mid + Close + post, Close, |Open|) == Some(|Open| + |mid|)
  {
    var s := Open + mid + Close + post;
    var u := mid + (Close + post);
    assert s == Open + u;
    TagsHeadUnique();
    assert OccursAt(Close + post, Close, 0);
    OccursAtShift(mid, Close + post, Close, 0);
    OccursAtShift(Open, u, Close, |mid|);
    forall k | |Open| <= k < |Open| + |mid| ensures !OccursAt(s, Close, k) {
      NoStraddle(mid, Close + post, Close, k - |Open|);
      OccursAtShift(Open, u, Close, k - |Open|);
    }
    FindIsFirst(s, Close, |Open|, |Open| + |mid|);
    j := |Open| + |mid| + |Close|;
  }

  /** A span opened after tag-free text `pre` and closed by the first
      `</think>` after it is deleted whole, whatever `mid` holds (other opening
      tags, newlines); the scan resumes right after the closing tag. */
  lemma SpanRemoved(pre: string, mid: string, post: string)
    requires !Contains(pre, Open) && !Contains(mid, Close)
    ensures RemoveSpans(pre + Open + mid + Close + post) == pre + RemoveSpans(post)
  {
    var rest := Open + mid + Close + post;
    var j := SpanEnd(mid, post);
    assert StartsWith(rest, Open);
    assert rest[j..] == post;
    KeepsPrefix(pre, rest);
    Regroup(pre, Open, mid, Close, post);
  }

  /** Text not starting with an opening tag loses nothing at its head. */
  lemma RemoveSpansCopiesHead(s: string)
    requires s != [] && !StartsWith(s, Open)
    ensures RemoveSpans(s) == [s[0]] + RemoveSpans(s[1..])
  {
  }

  /** A prefix without an opening tag, followed by text that starts a tag, is
      copied through by the first pass. */
  lemma {:induction false} KeepsPrefix(pre: string, rest: string)
    requires !Contains(pre, Open)
    requires rest != [] && rest[0] == '<'
    ensures RemoveSpans(pre + rest) == pre + RemoveSpans(rest)
    decreases |pre|
  {
    if pre != [] {
      var s := pre + rest;
      assert !StartsWith(s, Open) by {
        TagsHeadUnique();
        NotStartingWith(pre, rest, Open);
      }
      assert !Contains(pre[1..], Open) by {
        NotContainsTail(pre, Open);
      }
      assert s[1..] == pre[1..] + rest;
      RemoveSpansCopiesHead(s);
      KeepsPrefix(pre[1..], rest);
      HeadTail(pre, RemoveSpans(rest));
    } else {
      assert pre + rest == rest;
    }
  }

  // ---------------------------------------------------------------------------
  // Second pass: re.sub(r"<think>|</think>", "", text)

  /** Deletes every `<think>` and every `</think>` left over by the first pass. */
  function RemoveTags(s: string): (r: string)
    ensures |r| <= |s|
    decreases |s|
  {
    if s == [] then []
    else if StartsWith(s, Open) then RemoveTags(s[|Open|..])
    else if StartsWith(s, Close) then RemoveTags(s[|Close|..])
    else [s[0]] + RemoveTags(s[1..])
  }

  /** The second pass only deletes characters. */
  lemma {:induction false} RemoveTagsSubseq(s: string)
    ensures IsSubseq(RemoveTags(s), s)
    decreases |s|
  {
    if s != [] {
      if StartsWith(s, Open) || StartsWith(s, Close) {
        var e := if StartsWith(s, Open) then |Open| else |Close|;
        RemoveTagsSubseq(s[e..]);
        SubseqDropPrefix(RemoveTags(s[e..]), s[..e], s[e..]);
        assert s[..e] + s[e..] == s;
      } else {
        RemoveTagsSubseq(s[1..]);
        SubseqCons(s[0], RemoveTags(s[1..]), s[1..]);
        assert [s[0]] + s[1..] == s;
      }
    }
  }

  /** Text holding neither tag. */
  ghost predicate NoTags(s: string) {
    !Contains(s, Open) && !Contains(s, Close)
  }

  /** Text holding neither tag passes the second pass unchanged. */
  lemma {:induction false} RemoveTagsNoTags(s: string)
    requires NoTags(s)
    ensures RemoveTags(s) == s
    decreases |s|
  {
    if s != [] {
      NotContainsNotStart(s, Open);
      NotContainsNotStart(s, Close);
      NotContainsTail(s, Open);
      NotContainsTail(s, Close);
      RemoveTagsNoTags(s[1..]);
      assert [s[0]] + s[1..] == s;
    }
  }

  /** After tag-free text `pre`, a tag is deleted and the scan goes on after it. */
  lemma TagRemoved(pre: string, tag: string, post: string)
    requires tag == Open || tag == Close
    requires NoTags(pre)
    ensures RemoveTags(pre + tag + post) == pre + RemoveTags(post)
  {
    var rest := tag + post;
    assert StartsWith(rest, tag);
    assert rest[|tag|..] == post;
    assert tag == Close ==> rest[1] != Open[1];
    KeepsTagFreePrefix(pre, rest);
    assert pre + tag + post == pre + rest;
  }

  /** Text starting with neither tag loses nothing at its head. */
  lemma RemoveTagsCopiesHead(s: string)
    requires s != [] && !StartsWith(s, Open) && !StartsWith(s, Close)
    ensures RemoveTags(s) == [s[0]] + RemoveTags(s[1..])
  {
  }

  /** A prefix without either tag, followed by text that starts a tag, is
      copied through by the second pass. */
  lemma {:induction false} KeepsTagFreePrefix(pre: string, rest: string)
    requires NoTags(pre)
    requires rest != [] && rest[0] == '<'
    ensures RemoveTags(pre + rest) == pre + RemoveTags(rest)
    decreases |pre|
  {
    if pre != [] {
      var s := pre + rest;
      assert !StartsWith(s, Open) && !StartsWith(s, Close) by {
        TagsHeadUnique();
        NotStartingWith(pre, rest, Open);
        NotStartingWith(pre, rest, Close);
      }
      assert NoTags(pre[1..]) by {
        NotContainsTail(pre, Open);
        NotContainsTail(pre, Close);
      }
      assert s[1..] == pre[1..] + rest;
      RemoveTagsCopiesHead(s);
      KeepsTagFreePrefix(pre[1..], rest);
      HeadTail(pre, RemoveTags(rest));
    } else {
      assert pre + rest == rest;
    }
  }

  // ---------------------------------------------------------------------------
  // clean_response

  /** `clean_response`: both passes, then `strip()`. The result never gets
      longer and has no whitespace at either end. */
  function CleanResponse(s: string): (r: string)
    ensures |r| <= |s|
    ensures Stripped(r)
  {
    Strip(RemoveTags(RemoveSpans(s)))
  }

  /** `clean_response` only deletes characters of its input. */
  lemma CleanResponseSubseq(s: string)
    ensures IsSubseq(CleanResponse(s), s)
  {
    var a := RemoveSpans(s);
    var b := RemoveTags(a);
    RemoveSpansSubseq(s);
    RemoveTagsSubseq(a);
    StripSubseq(b);
    SubseqTrans(b, a, s);
    SubseqTrans(Strip(b), b, s);
  }

  /** Text without either tag is only stripped. */
  lemma CleanResponseNoTags(s: string)
    requires NoTags(s)
    ensures CleanResponse(s) == Strip(s)
  {
    RemoveSpansNoOpen(s);
    RemoveTagsNoTags(s);
  }

  /** The usual reply of a reasoning model: a `<think>` block inside tag-free
      text is dropped whole and the rest is stripped. */
  lemma CleanResponseDropsThinkBlock(pre: string, mid: string, post: string)
    requires NoTags(pre + post) && !Contains(mid, Close)
    ensures CleanResponse(pre + Open + mid + Close + post) == Strip(pre + post)
  {
    NotContainsParts(pre, post, Open);
    SpanRemoved(pre, mid, post);
    RemoveSpansNoOpen(post);
    RemoveTagsNoTags(pre + post);
  }

  /** Text shorter than a tag holds no tag. */
  lemma ShortNoTags(s: string)
    requires |s| < |Open|
    ensures NoTags(s)
  {
  }

  lemma JoinedTag()
    ensures "<thi" + "nk>" == Open
  {
  }

  /** Because the second pass does not scan its own output again, deleting a
      tag can join the text around it into a new tag, which is kept. */
  lemma TagCanSurvive()
    ensures CleanResponse("<thi<think>nk>") == "<think>"
  {
    var s := "<thi<think>nk>";
    assert s == "<thi" + Open + "nk>";
    assert !Contains(s, Close) by {
      forall k | 0 <= k && k + |Close| <= |s| ensures !OccursAt(s, Close, k) {
        assert s[k..k + |Close|][1] == s[k + 1] != Close[1];
      }
    }
    assert RemoveSpans(s) == s by {
      RemoveSpansNoClose(s);
    }
    assert RemoveTags(s) == "<think>" by {
      ShortNoTags("<thi");
      ShortNoTags("nk>");
      TagRemoved("<thi", Open, "nk>");
      RemoveTagsNoTags("nk>");
      JoinedTag();
    }
    StripOfStripped("<think>");
  }
}
