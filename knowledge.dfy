/**
 * The knowledge match (`get_relevant_knowledge`): the lessons whose topic
 * occurs in the user's message, case-insensitively, supply the context that
 * is sent to the model ahead of the message.
 */
module Knowledge {
  import opened Text

  /** One entry of the lessons table: `{"topic": ..., "content": ...}`. */
  datatype Lesson = Lesson(topic: string, content: string)

  /** The lower-cased topic occurs in the lower-cased message. */
  predicate TopicMatches(lesson: Lesson, message: string)
    ensures TopicMatches(lesson, message) <==> IsSubstring(Lower(lesson.topic), Lower(message))
  {
    Contains(Lower(lesson.topic), Lower(message))
  }

  /** The contents of the matching lessons, in table order: the list `matches`
      after the loop has visited all of `lessons`. */
  function Matching(lessons: seq<Lesson>, message: string): seq<string>
    decreases |lessons|
  {
    if |lessons| == 0 then
      []
    else
      var last := lessons[|lessons| - 1];
      Matching(lessons[..|lessons| - 1], message)
        + (if TopicMatches(last, message) then [last.content] else [])
  }

  /** The indices of the lessons whose topic matches. */
  ghost function MatchSet(lessons: seq<Lesson>, message: string): set<int> {
    set i | 0 <= i < |lessons| && TopicMatches(lessons[i], message)
  }

  /** `get_relevant_knowledge(user_msg)` over the given lessons table: collects
      the content of every matching lesson and joins them with newlines. */
  method GetRelevantKnowledge(lessons: seq<Lesson>, userMsg: string) returns (context: string)
    ensures context == Join("\n", Matching(lessons, userMsg))
    ensures MatchSet(lessons, userMsg) == {} ==> context == ""
  {
    var msg := Lower(userMsg);
    var matches: seq<string> := [];
    for i := 0 to |lessons|
      invariant matches == Matching(lessons[..i], userMsg)
    {
      var topic := Lower(lessons[i].topic);
      if Contains(topic, msg) {
        matches := matches + [lessons[i].content];
      }
      assert lessons[..i + 1][..i] == lessons[..i];
    }
    assert lessons[..|lessons|] == lessons;
    context := Join("\n", matches);
    if MatchSet(lessons, userMsg) == {} {
      MatchingEmptyIff(lessons, userMsg);
    }
  }

  /** Matching over a table split in two is matching over each half, in order:
      the table's order is the order of the context. */
  lemma {:induction false} MatchingAppend(a: seq<Lesson>, b: seq<Lesson>, message: string)
    ensures Matching(a + b, message) == Matching(a, message) + Matching(b, message)
    decreases |b|
  {
    if |b| == 0 {
      assert a + b == a;
    } else {
      var n := |b| - 1;
      assert (a + b)[..|a + b| - 1] == a + b[..n];
      MatchingAppend(a, b[..n], message);
    }
  }

  /** A one-lesson table contributes its content exactly when its topic matches. */
  lemma MatchingSingle(lesson: Lesson, message: string)
    ensures Matching([lesson], message) == if TopicMatches(lesson, message) then [lesson.content] else []
  {
    assert [lesson][..0] == [];
  }

  /** One piece per matching lesson: non-matching lessons contribute nothing. */
  lemma {:induction false} MatchingCount(lessons: seq<Lesson>, message: string)
    ensures |Matching(lessons, message)| == |MatchSet(lessons, message)|
    decreases |lessons|
  {
    if |lessons| > 0 {
      var n := |lessons| - 1;
      var prefix := lessons[..n];
      MatchingCount(prefix, message);
      if TopicMatches(lessons[n], message) {
        assert MatchSet(lessons, message) == MatchSet(prefix, message) + {n};
      } else {
        assert MatchSet(lessons, message) == MatchSet(prefix, message);
      }
    } else {
      assert MatchSet(lessons, message) == {};
    }
  }

  /** No piece is collected exactly when no topic occurs in the message. */
  lemma MatchingEmptyIff(lessons: seq<Lesson>, message: string)
    ensures Matching(lessons, message) == [] <==> MatchSet(lessons, message) == {}
  {
    MatchingCount(lessons, message);
  }

  /** Every piece is the content of a lesson whose topic matches. */
  lemma {:induction false} MatchingSound(lessons: seq<Lesson>, message: string, j: nat)
    requires j < |Matching(lessons, message)|
    ensures exists i :: 0 <= i < |lessons| && TopicMatches(lessons[i], message)
                        && Matching(lessons, message)[j] == lessons[i].content
    decreases |lessons|
  {
    var n := |lessons| - 1;
    var prefix := lessons[..n];
    if j < |Matching(prefix, message)| {
      MatchingSound(prefix, message, j);
      var i :| 0 <= i < |prefix| && TopicMatches(prefix[i], message)
               && Matching(prefix, message)[j] == prefix[i].content;
      assert lessons[i] == prefix[i];
    } else {
      assert TopicMatches(lessons[n], message);
    }
  }

  /** Every matching lesson's content is among the pieces. */
  lemma {:induction false} MatchingComplete(lessons: seq<Lesson>, message: string, i: nat)
    requires i < |lessons| && TopicMatches(lessons[i], message)
    ensures lessons[i].content in Matching(lessons, message)
    decreases |lessons|
  {
    var n := |lessons| - 1;
    if i < n {
      MatchingComplete(lessons[..n], message, i);
    }
  }

  /** Messages that agree up to letter case select the same pieces. */
  lemma {:induction false} MatchingIgnoresMessageCase(lessons: seq<Lesson>, m1: string, m2: string)
    requires Lower(m1) == Lower(m2)
    ensures Matching(lessons, m1) == Matching(lessons, m2)
    decreases |lessons|
  {
    if |lessons| > 0 {
      MatchingIgnoresMessageCase(lessons[..|lessons| - 1], m1, m2);
    }
  }

  /** Tables that agree up to the letter case of their topics select the same
      pieces. */
  lemma {:induction false} MatchingIgnoresTopicCase(t1: seq<Lesson>, t2: seq<Lesson>, message: string)
    requires |t1| == |t2|
    requires forall i :: 0 <= i < |t1| ==> Lower(t1[i].topic) == Lower(t2[i].topic) && t1[i].content == t2[i].content
    ensures Matching(t1, message) == Matching(t2, message)
    decreases |t1|
  {
    if |t1| > 0 {
      var n := |t1| - 1;
      MatchingIgnoresTopicCase(t1[..n], t2[..n], message);
      assert TopicMatches(t1[n], message) == TopicMatches(t2[n], message);
    }
  }

  /** A lesson with an empty topic matches every message, since the empty
      string occurs in every string. */
  lemma EmptyTopicMatchesAll(content: string, message: string)
    ensures TopicMatches(Lesson("", content), message)
  {
    assert OccursAt(Lower(""), Lower(message), 0);
  }
}
