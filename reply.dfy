/** What the result handler does with the text the chat model sends back:
    it drops the Markdown code fences and the surrounding white space
    (app.py line 176), stores the plan, and shows an apology carrying the
    exception text instead when the call or the history commit raises
    (lines 186-188). */
module Reply {
  import opened Wrappers
  import opened Text

  const Fence := "```"
  const HtmlFence := "```html"

  /** `text.replace("```html", "").replace("```", "").strip()` */
  function StripFences(text: string): string
  {
    Strip(ReplaceAll(ReplaceAll(text, HtmlFence, ""), Fence, ""))
  }

  /** Removing the fences never makes a backtick appear at the front. */
  lemma UnfencedStartsWithTick(u: string)
    requires ReplaceAll(u, Fence, "") != "" && ReplaceAll(u, Fence, "")[0] == '`'
    ensures u != "" && u[0] == '`'
  {
    if |u| >= |Fence| && u[..|Fence|] != Fence {
      assert ReplaceAll(u, Fence, "") == [u[0]] + ReplaceAll(u[1..], Fence, "");
    }
  }

  /** Two backticks at the front of the result were two backticks at the
      front of the input. */
  lemma UnfencedStartsWithTwoTicks(u: string)
    requires |ReplaceAll(u, Fence, "")| >= 2
    requires ReplaceAll(u, Fence, "")[0] == '`' && ReplaceAll(u, Fence, "")[1] == '`'
    ensures |u| >= 2 && u[0] == '`' && u[1] == '`'
  {
    if |u| >= |Fence| && u[..|Fence|] != Fence {
      var rest := ReplaceAll(u[1..], Fence, "");
      assert ReplaceAll(u, Fence, "") == [u[0]] + rest;
      UnfencedStartsWithTick(u[1..]);
    } else if |u| >= |Fence| {
      assert u[..|Fence|][1] == '`';
    }
  }

  /** A fence at the front is dropped and the rest is cleaned on its own. */
  lemma FenceAtFront(u: string)
    requires |u| >= |Fence| && u[..|Fence|] == Fence
    ensures ReplaceAll(u, Fence, "") == ReplaceAll(u[|Fence|..], Fence, "")
  {
    var rest := ReplaceAll(u[|Fence|..], Fence, "");
    assert ReplaceAll(u, Fence, "") == "" + rest;
    assert "" + rest == rest;
  }

  /** A kept first character does not start a fence: two backticks after it
      in the result were two backticks after it in the input. */
  lemma KeptHeadNoFence(u: string)
    requires |u| >= |Fence| && u[..|Fence|] != Fence
    ensures !OccursAt([u[0]] + ReplaceAll(u[1..], Fence, ""), Fence, 0)
  {
    var rest := ReplaceAll(u[1..], Fence, "");
    var r := [u[0]] + rest;
    if |r| >= |Fence| {
      if rest[0] == '`' && rest[1] == '`' {
        UnfencedStartsWithTwoTicks(u[1..]);
        assert u[..|Fence|] == [u[0], u[1], u[2]];
      }
      assert r[0..3] == [r[0], r[1], r[2]];
      assert r[1] == rest[0] && r[2] == rest[1];
    }
  }

  /** `s.replace("```", "")` leaves no triple backtick behind: a backtick
      that is kept is never followed by two more kept ones. */
  lemma {:induction false} NoFenceAfterRemoval(u: string)
    ensures !Contains(ReplaceAll(u, Fence, ""), Fence)
    decreases |u|
  {
    if |u| < |Fence| {
      assert ReplaceAll(u, Fence, "") == u;
    } else if u[..|Fence|] == Fence {
      NoFenceAfterRemoval(u[|Fence|..]);
      FenceAtFront(u);
    } else {
      var rest := ReplaceAll(u[1..], Fence, "");
      NoFenceAfterRemoval(u[1..]);
      KeptHeadNoFence(u);
      ConsAbsent(u[0], rest, Fence);
      assert ReplaceAll(u, Fence, "") == [u[0]] + rest;
    }
  }

  /** After fence stripping no triple backtick is left, and the text
      neither starts nor ends with white space. */
  lemma StripFencesClean(text: string)
    ensures !Contains(StripFences(text), Fence)
    ensures StripFences(text) == ""
            || (!IsSpace(StripFences(text)[0]) && !IsSpace(StripFences(text)[|StripFences(text)| - 1]))
  {
    var u := ReplaceAll(ReplaceAll(text, HtmlFence, ""), Fence, "");
    NoFenceAfterRemoval(ReplaceAll(text, HtmlFence, ""));
    var a, b := StripSlice(u);
    if Contains(u[a..b], Fence) {
      ContainsSlice(u, a, b, Fence);
    }
  }

  /** A string in which the first character of `t` never appears does not
      contain `t`. */
  lemma LeadMissing(s: string, t: string)
    requires t != "" && t[0] !in s
    ensures !Contains(s, t)
  {
  }

  /** A reply without backticks and without surrounding white space comes
      through unchanged. */
  lemma StripFencesPlain(text: string)
    requires '`' !in text
    requires text == "" || (!IsSpace(text[0]) && !IsSpace(text[|text| - 1]))
    ensures StripFences(text) == text
  {
    LeadMissing(text, HtmlFence);
    ReplaceAbsent(text, HtmlFence, "");
    LeadMissing(text, Fence);
    ReplaceAbsent(text, Fence, "");
    StripUnchanged(text);
  }

  /** Stripping an already stripped reply changes nothing. */
  lemma StripFencesIdempotent(text: string)
    ensures StripFences(StripFences(text)) == StripFences(text)
  {
    var r := StripFences(text);
    StripFencesClean(text);
    if Contains(r, HtmlFence) {
      var i :| 0 <= i <= |r| - |HtmlFence| && OccursAt(r, HtmlFence, i);
      assert HtmlFence[..|Fence|] == Fence;
      OccursPrefix(r, HtmlFence, Fence, i);
    }
    ReplaceAbsent(r, HtmlFence, "");
    ReplaceAbsent(r, Fence, "");
    StripUnchanged(r);
  }

  // ---------------------------------------------------------------------
  // The call, the commit and the page
  // ---------------------------------------------------------------------

  /** What came back from the chat call: the message content, or the text
      of the exception it raised.  A reply whose content is None makes
      `.replace` raise, so it arrives here as `Raised` as well. */
  datatype ChatReply = Content(text: string) | Raised(detail: string)

  /** The apology shown in place of the plan, with `str(e)` inside. */
  function ErrorPage(detail: string): (r: string)
    ensures |r| > |detail| && Contains(r, detail)
  {
    var head := "<p>申し訳ありません。プランの生成中にエラーが発生しました。<br>詳細: ";
    ContainsMiddle(head, detail, "</p>");
    head + detail + "</p>"
  }

  /** The exception text, if any, of committing the history row (lines
      179-184).  Its `destination` is the form's `place`, and the column is
      declared NOT NULL (line 22): a row without one is refused with the
      integrity error's text `nullError`.  Any other row meets the schema,
      and whether its commit raises is up to the database (`dbError`). */
  function CommitError(destination: Option<string>, dbError: Option<string>, nullError: string): Option<string>
  {
    if destination.None? then Some(nullError) else dbError
  }

  /** The plan text handed to the page: the stripped reply when both the
      call and the commit of the history row went through, otherwise the
      apology for whichever raised first. */
  function ShownPlan(reply: ChatReply, commitError: Option<string>): string
  {
    match reply
    case Raised(e) => ErrorPage(e)
    case Content(t) =>
      match commitError
      case Some(e) => ErrorPage(e)
      case None => StripFences(t)
  }

  /** The `plan_result` of the history row that is committed, if any: only a
      successful call whose commit goes through leaves one. */
  function StoredPlan(reply: ChatReply, commitError: Option<string>): Option<string>
  {
    if reply.Content? && commitError.None? then Some(StripFences(reply.text)) else None
  }

  /** The page shows what was stored whenever something was stored, and an
      apology whenever nothing was. */
  lemma ShownMatchesStored(reply: ChatReply, commitError: Option<string>)
    ensures StoredPlan(reply, commitError).Some?
            ==> ShownPlan(reply, commitError) == StoredPlan(reply, commitError).value
    ensures StoredPlan(reply, commitError).None?
            ==> exists e :: ShownPlan(reply, commitError) == ErrorPage(e)
    ensures StoredPlan(reply, commitError).Some?
            ==> !Contains(ShownPlan(reply, commitError), Fence)
  {
    if reply.Content? && commitError.None? {
      StripFencesClean(reply.text);
    } else if reply.Raised? {
      assert ShownPlan(reply, commitError) == ErrorPage(reply.detail);
    } else {
      assert ShownPlan(reply, commitError) == ErrorPage(commitError.value);
    }
  }

  /** A history row is stored exactly when the request has a destination,
      the call answered and the database took the row. */
  lemma StoredNeedsDestination(destination: Option<string>, reply: ChatReply, dbError: Option<string>, nullError: string)
    ensures StoredPlan(reply, CommitError(destination, dbError, nullError)).Some?
            <==> destination.Some? && reply.Content? && dbError.None?
  {
  }

  /** A request without a destination never shows a plan: the page is the
      apology for the call's exception, or, when the call answered, for the
      refused row, after the chat model has been asked all the same. */
  lemma MissingDestinationApology(reply: ChatReply, dbError: Option<string>, nullError: string)
    ensures ShownPlan(reply, CommitError(None, dbError, nullError))
            == ErrorPage(if reply.Raised? then reply.detail else nullError)
    ensures StoredPlan(reply, CommitError(None, dbError, nullError)) == None
  {
  }
}
