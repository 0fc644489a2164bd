/** The pull-request comment the action manages: the marker line that
    identifies its own comments, the message it posts, and which existing
    comments it replaces. */
module Comment {
  import opened Wrappers
  import opened Text

  /** The marker line opening every comment the action posts. It is written
      as four pieces only so that the verifier checks its characters in short
      runs; the value is the one marker string. */
  const Preface: string :=
    "<!-- Comment automat" + "ically managed by De" + "tect Action, do not " + "remove this line -->"

  const Crlf: string := "\r\n"

  /** An existing comment: its identifier and its possibly missing body. */
  datatype IssueComment = IssueComment(id: int, body: Option<string>)

  /** What one call asks of the issue API. */
  datatype Action = DeleteComment(commentId: int) | CreateComment(body: string)

  /** A line break `\r\n` begins at index `j` of `s`. */
  predicate CrlfAt(s: string, j: int) {
    0 <= j && j + 1 < |s| && s[j] == '\r' && s[j + 1] == '\n'
  }

  predicate NoCarriageReturn(s: string) {
    forall j :: 0 <= j < |s| ==> s[j] != '\r'
  }

  /** The message posted for a report: the marker, a line break, the report.
      Its first line is the marker, so the action recognises it later. */
  function Message(report: string): (r: string)
    ensures StartsWith(r, Preface + Crlf) && r[|Preface + Crlf|..] == report
    ensures FirstLine(r) == Preface
  {
    PrefaceHasNoCarriageReturn();
    FirstLineOfLineBreak(Preface, report);
    Preface + Crlf + report
  }

  /** Recovers the report from a message, if the message is one. */
  function StripPreface(message: string): (r: Option<string>)
    ensures r.Some? ==> Message(r.value) == message
  {
    if StartsWith(message, Preface + Crlf) then Some(message[|Preface + Crlf|..]) else None
  }

  /** Stripping the marker and line break gives back exactly the report. */
  lemma MessageRoundTrip(report: string)
    ensures StripPreface(Message(report)) == Some(report)
  {
  }

  /** The first element of `s.split('\r\n')`: everything before the first
      line break, or all of `s` when it has none. */
  function FirstLine(s: string): (r: string)
    ensures |r| <= |s| && r == s[..|r|]
    ensures forall j :: 0 <= j < |r| ==> !CrlfAt(s, j)
    ensures |r| == |s| || CrlfAt(s, |r|)
    decreases |s|
  {
    if |s| == 0 || CrlfAt(s, 0) then ""
    else
      var rest := FirstLine(s[1..]);
      assert forall j :: 1 <= j <= |rest| ==> !CrlfAt(s, j) by {
        forall j | 1 <= j <= |rest|
          ensures !CrlfAt(s, j)
        {
          assert !CrlfAt(s[1..], j - 1);
        }
      }
      assert |rest| < |s[1..]| ==> CrlfAt(s, |rest| + 1);
      [s[0]] + rest
  }

  /** A prefix free of line breaks and followed by one is the first line. */
  lemma FirstLineUnique(s: string, k: nat)
    requires k <= |s|
    requires forall j :: 0 <= j < k ==> !CrlfAt(s, j)
    requires k == |s| || CrlfAt(s, k)
    ensures FirstLine(s) == s[..k]
  {
  }

  /** The marker holds no carriage return. */
  lemma PrefaceHasNoCarriageReturn()
    ensures NoCarriageReturn(Preface)
  {
  }

  /** A line without carriage returns is the first line of anything that
      follows it with a line break. */
  lemma FirstLineOfLineBreak(line: string, rest: string)
    requires NoCarriageReturn(line)
    ensures FirstLine(line + Crlf + rest) == line
  {
    var s := line + Crlf + rest;
    assert forall j :: 0 <= j < |line| ==> s[j] == line[j];
    FirstLineUnique(s, |line|);
    assert s[..|line|] == line;
  }

  /** A line without carriage returns is the first line of a body exactly
      when the body starts with it and then ends or breaks the line. */
  lemma FirstLineIs(body: string, line: string)
    requires NoCarriageReturn(line)
    ensures FirstLine(body) == line <==>
              StartsWith(body, line) && (|body| == |line| || CrlfAt(body, |line|))
  {
    var n := |line|;
    if StartsWith(body, line) && (|body| == n || CrlfAt(body, n)) {
      assert forall j :: 0 <= j < n ==> !CrlfAt(body, j) by {
        forall j | 0 <= j < n
          ensures !CrlfAt(body, j)
        {
          assert body[j] == body[..n][j] == line[j];
        }
      }
      FirstLineUnique(body, n);
    }
  }

  /** A comment is the action's own when the first line of its body is
      exactly the marker; a comment without a body never is. Equivalently,
      the body starts with the marker and then ends or breaks the line. */
  function IsOwnComment(comment: IssueComment): (r: bool)
    ensures r <==>
              && comment.body.Some?
              && StartsWith(comment.body.value, Preface)
              && (|comment.body.value| == |Preface| || CrlfAt(comment.body.value, |Preface|))
  {
    if comment.body.None? then false
    else
      PrefaceHasNoCarriageReturn();
      FirstLineIs(comment.body.value, Preface);
      FirstLine(comment.body.value) == Preface
  }

  /** The action recognises every message it posts as its own. */
  lemma OwnMessageRecognised(id: int, report: string)
    ensures IsOwnComment(IssueComment(id, Some(Message(report))))
  {
    PrefaceHasNoCarriageReturn();
    FirstLineOfLineBreak(Preface, report);
  }

  /** A marker followed by a bare `\n` is not the action's: the first line
      then runs past the marker. */
  lemma LineFeedMarkerNotRecognised(id: int, rest: string)
    ensures !IsOwnComment(IssueComment(id, Some(Preface + "\n" + rest)))
  {
  }

  /** The existing comments selected for deletion. */
  function SelectOwnComments(comments: seq<IssueComment>): (r: seq<IssueComment>)
    ensures forall c :: c in r <==> c in comments && IsOwnComment(c)
    ensures multiset(r) <= multiset(comments)
    ensures forall c :: IsOwnComment(c) ==> multiset(r)[c] == multiset(comments)[c]
  {
    if |comments| == 0 then []
    else
      var rest := SelectOwnComments(comments[1..]);
      assert comments == [comments[0]] + comments[1..];
      if IsOwnComment(comments[0]) then [comments[0]] + rest else rest
  }

  /** One deletion request per selected comment, in order. */
  function DeletionsOf(selected: seq<IssueComment>): (r: seq<Action>)
    ensures |r| == |selected|
    ensures forall i :: 0 <= i < |r| ==> r[i] == DeleteComment(selected[i].id)
  {
    if |selected| == 0 then [] else [DeleteComment(selected[0].id)] + DeletionsOf(selected[1..])
  }

  /** One call of `commentOnPR`: delete every selected comment, then
      create one comment holding the new message. */
  function CommentOnPR(report: string, existing: seq<IssueComment>): (actions: seq<Action>)
    ensures |actions| == |SelectOwnComments(existing)| + 1
    ensures actions[|actions| - 1] == CreateComment(Message(report))
    ensures forall i :: 0 <= i < |actions| && actions[i].CreateComment? ==> i == |actions| - 1
  {
    DeletionsOf(SelectOwnComments(existing)) + [CreateComment(Message(report))]
  }

  /** Each deletion in a list built from selected comments removes one of
      them. */
  lemma DeletionsAreSelected(selected: seq<IssueComment>, i: nat)
    requires i < |selected|
    ensures selected[i] in selected && DeletionsOf(selected)[i] == DeleteComment(selected[i].id)
  {
  }

  /** Every selected comment has its deletion in the list. */
  lemma SelectedAreDeleted(selected: seq<IssueComment>, c: IssueComment)
    requires c in selected
    ensures DeleteComment(c.id) in DeletionsOf(selected)
  {
    var k :| 0 <= k < |selected| && selected[k] == c;
    assert DeletionsOf(selected)[k] == DeleteComment(c.id);
  }

  /** The deletions one call requests are exactly those of the action's own
      comments: each deleted id belongs to one, and every one is deleted. */
  lemma CommentOnPRDeletesOwnComments(report: string, existing: seq<IssueComment>)
    ensures var actions := CommentOnPR(report, existing);
            && (forall i :: 0 <= i < |actions| - 1 ==>
                  exists c :: c in existing && IsOwnComment(c) && actions[i] == DeleteComment(c.id))
            && (forall c :: c in existing && IsOwnComment(c) ==> DeleteComment(c.id) in actions)
  {
    var selected := SelectOwnComments(existing);
    var actions := CommentOnPR(report, existing);
    assert actions == DeletionsOf(selected) + [CreateComment(Message(report))];
    forall i | 0 <= i < |actions| - 1
      ensures exists c :: c in existing && IsOwnComment(c) && actions[i] == DeleteComment(c.id)
    {
      DeletionsAreSelected(selected, i);
    }
    forall c | c in existing && IsOwnComment(c)
      ensures DeleteComment(c.id) in actions
    {
      SelectedAreDeleted(selected, c);
    }
  }
}
