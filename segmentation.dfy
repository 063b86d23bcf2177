/**
 * How a successful gateway reply becomes bot messages (src/components/Chatbot.tsx,
 * lines 142-146 and 157): the reply is split on the two-character sequence
 * backslash-k, whitespace-only pieces are dropped, the canned greeting stands in
 * when nothing is left, and every piece is trimmed when it is shown.
 */
module Segmentation {
  import opened Wrappers
  import opened Strings

  /** The literal two characters `\` and `k` that separate reply turns. */
  const DELIMITER: string := "\\k"

  /** The reply shown when the service answers with no usable text. */
  const GREETING: string := "Thank you for contacting R & S Flooring. " + "How can we help you today?"

  /** No backslash-k occurs anywhere in `s`. */
  predicate DelimiterFree(s: string) {
    forall i :: 0 <= i < |s| - 1 ==> !(s[i] == '\\' && s[i + 1] == 'k')
  }

  /**
   * `s.split("\\k")`: the pieces between successive leftmost occurrences of the
   * delimiter. There is always at least one piece (`"".split(d)` is `[""]`).
   */
  function Split(s: string): (pieces: seq<string>)
    ensures |pieces| >= 1
    ensures pieces[0] <= s
    ensures forall p <- pieces :: DelimiterFree(p)
    decreases |s|
  {
    if |s| < 2 then
      [s]
    else if s[0] == '\\' && s[1] == 'k' then
      [""] + Split(s[2..])
    else
      var rest := Split(s[1..]);
      PrependKeepsDelimiterFree(s[0], rest[0]);
      assert forall p <- rest[1..] :: p in rest;
      [[s[0]] + rest[0]] + rest[1..]
  }

  /** A character that does not start a delimiter with `p[0]` keeps `p` delimiter-free. */
  lemma {:induction false} PrependKeepsDelimiterFree(c: char, p: string)
    requires DelimiterFree(p)
    requires !(c == '\\' && p != [] && p[0] == 'k')
    ensures DelimiterFree([c] + p)
  {
    var q := [c] + p;
    forall i | 0 <= i < |q| - 1 ensures !(q[i] == '\\' && q[i + 1] == 'k') {
      if i > 0 {
        assert q[i] == p[i - 1] && q[i + 1] == p[i];
      }
    }
  }

  /** The pieces put back together with the delimiter between each two. */
  function Join(pieces: seq<string>): string
    requires |pieces| >= 1
  {
    if |pieces| == 1 then pieces[0] else pieces[0] + DELIMITER + Join(pieces[1..])
  }

  lemma {:induction false} JoinConsChar(c: char, pieces: seq<string>)
    requires |pieces| >= 1
    ensures Join([[c] + pieces[0]] + pieces[1..]) == [c] + Join(pieces)
  {
    var qs := [[c] + pieces[0]] + pieces[1..];
    assert |qs| == |pieces| && qs[0] == [c] + pieces[0];
    if |pieces| > 1 {
      assert qs[1..] == pieces[1..];
      assert Join(qs) == qs[0] + DELIMITER + Join(pieces[1..]);
      assert Join(pieces) == pieces[0] + DELIMITER + Join(pieces[1..]);
    }
  }

  /** Splitting loses nothing: joining the pieces again gives back the reply. */
  lemma {:induction false} SplitThenJoin(s: string)
    ensures Join(Split(s)) == s
    decreases |s|
  {
    if |s| < 2 {
    } else if s[0] == '\\' && s[1] == 'k' {
      SplitThenJoin(s[2..]);
      assert ([""] + Split(s[2..]))[1..] == Split(s[2..]);
      assert s == DELIMITER + s[2..];
    } else {
      SplitThenJoin(s[1..]);
      JoinConsChar(s[0], Split(s[1..]));
      assert s == [s[0]] + s[1..];
    }
  }

  /** A delimiter-free string is one piece. */
  lemma {:induction false} SplitOfDelimiterFree(p: string)
    requires DelimiterFree(p)
    ensures Split(p) == [p]
    decreases |p|
  {
    if |p| >= 2 {
      assert DelimiterFree(p[1..]);
      SplitOfDelimiterFree(p[1..]);
      assert p == [p[0]] + p[1..];
    }
  }

  /** A delimiter-free piece followed by the delimiter is cut off as the first piece. */
  lemma {:induction false} SplitAfterPiece(p: string, rest: string)
    requires DelimiterFree(p)
    ensures Split(p + DELIMITER + rest) == [p] + Split(rest)
    decreases |p|
  {
    var s := p + DELIMITER + rest;
    if |p| == 0 {
      assert s == DELIMITER + rest;
      assert s[2..] == rest;
    } else {
      assert s[0] == p[0];
      assert s[1] == if |p| >= 2 then p[1] else '\\';
      assert DelimiterFree(p[1..]);
      assert s[1..] == p[1..] + DELIMITER + rest;
      SplitAfterPiece(p[1..], rest);
      assert p == [p[0]] + p[1..];
    }
  }

  /**
   * Joining delimiter-free pieces and splitting the result gives the pieces
   * back: a service that separates its turns with backslash-k has them
   * recovered exactly.
   */
  lemma {:induction false} JoinThenSplit(pieces: seq<string>)
    requires |pieces| >= 1
    requires forall p <- pieces :: DelimiterFree(p)
    ensures Split(Join(pieces)) == pieces
    decreases |pieces|
  {
    if |pieces| == 1 {
      SplitOfDelimiterFree(pieces[0]);
    } else {
      SplitAfterPiece(pieces[0], Join(pieces[1..]));
      JoinThenSplit(pieces[1..]);
      assert pieces == [pieces[0]] + pieces[1..];
    }
  }

  /** `pieces.filter(part => part.trim() !== "")`, keeping the order of the pieces. */
  function NonBlank(pieces: seq<string>): (kept: seq<string>)
    ensures |kept| <= |pieces|
    ensures forall t :: t in kept <==> t in pieces && Trim(t) != ""
    decreases |pieces|
  {
    if pieces == [] then
      []
    else
      assert pieces == [pieces[0]] + pieces[1..];
      if Trim(pieces[0]) != "" then [pieces[0]] + NonBlank(pieces[1..]) else NonBlank(pieces[1..])
  }

  /** Filtering commutes with concatenation, so the kept pieces stay in reply order. */
  lemma {:induction false} NonBlankAppend(a: seq<string>, b: seq<string>)
    ensures NonBlank(a + b) == NonBlank(a) + NonBlank(b)
    decreases |a|
  {
    if a == [] {
      assert a + b == b;
    } else {
      assert (a + b)[0] == a[0];
      assert (a + b)[1..] == a[1..] + b;
      NonBlankAppend(a[1..], b);
    }
  }

  /** Filtering keeps a sequence of non-blank pieces as it is. */
  lemma {:induction false} NonBlankKeepsAll(pieces: seq<string>)
    requires forall p <- pieces :: Trim(p) != ""
    ensures NonBlank(pieces) == pieces
    decreases |pieces|
  {
    if pieces != [] {
      assert pieces[0] in pieces;
      NonBlankKeepsAll(pieces[1..]);
      assert pieces == [pieces[0]] + pieces[1..];
    }
  }

  /**
   * `data.reply || ""`: an absent reply reads as the empty string, a present
   * one as itself.
   */
  function ReplyText(reply: Option<string>): (text: string)
    ensures text == "" <==> reply.None? || reply.value == ""
    ensures reply.Some? ==> text == reply.value
  {
    match reply
    case Some(text) => text
    case None => ""
  }

  lemma GreetingIsTrimmed()
    ensures GREETING != "" && Trim(GREETING) == GREETING
  {
    TrimmedIsFixed(GREETING);
  }

  /**
   * The `replies` array of lines 142-146: the non-blank pieces of the reply,
   * or the greeting alone when there are none.
   */
  function Replies(reply: string): (replies: seq<string>)
    ensures |replies| >= 1
    ensures forall r <- replies :: Trim(r) != ""
  {
    GreetingIsTrimmed();
    var kept := NonBlank(Split(reply));
    if kept == [] then [GREETING] else kept
  }

  /** Every string of `rs` trimmed, in order. */
  function TrimAll(rs: seq<string>): (trimmed: seq<string>)
    ensures |trimmed| == |rs|
    ensures forall i :: 0 <= i < |rs| ==> trimmed[i] == Trim(rs[i])
  {
    seq(|rs|, i requires 0 <= i < |rs| => Trim(rs[i]))
  }

  /** Trimming strings that are already trimmed changes nothing. */
  lemma {:induction false} TrimAllKeepsTrimmed(rs: seq<string>)
    requires forall r <- rs :: Trim(r) == r
    ensures TrimAll(rs) == rs
  {
    var trimmed := TrimAll(rs);
    forall i | 0 <= i < |rs| ensures trimmed[i] == rs[i] {
      assert rs[i] in rs;
    }
  }

  /** The texts of the bot messages that one successful reply produces, in order. */
  function Segments(reply: string): (texts: seq<string>)
    ensures |texts| >= 1
    ensures forall t <- texts :: t != ""
  {
    TrimAll(Replies(reply))
  }

  /** Every segment is already trimmed: it neither starts nor ends with whitespace. */
  lemma {:induction false} SegmentsAreTrimmed(reply: string)
    ensures forall t <- Segments(reply) :: Trim(t) == t
  {
    forall t | t in Segments(reply) ensures Trim(t) == t {
      var i :| 0 <= i < |Segments(reply)| && Segments(reply)[i] == t;
      TrimIdempotent(Replies(reply)[i]);
    }
  }

  /** When no piece survives the filter, the greeting alone is shown. */
  lemma {:induction false} FallbackWhenNoneKept(reply: string)
    requires NonBlank(Split(reply)) == []
    ensures Segments(reply) == [GREETING]
  {
    GreetingIsTrimmed();
  }

  /** No piece survives the filter exactly when every piece is blank. */
  lemma {:induction false} NoneKeptWhenAllBlank(pieces: seq<string>)
    ensures NonBlank(pieces) == [] <==> forall p <- pieces :: IsBlank(p)
  {
    if NonBlank(pieces) != [] {
      assert NonBlank(pieces)[0] in NonBlank(pieces);
    }
  }

  /**
   * The greeting is shown, alone, when every piece of the reply is blank: an
   * empty or missing reply, or one made only of delimiters and whitespace.
   */
  lemma {:induction false} FallbackWhenAllBlank(reply: string)
    requires forall p <- Split(reply) :: IsBlank(p)
    ensures Segments(reply) == [GREETING]
  {
    NoneKeptWhenAllBlank(Split(reply));
    FallbackWhenNoneKept(reply);
  }

  /**
   * When some piece has text, the segments are exactly the non-blank pieces,
   * trimmed, in reply order; the greeting is not added.
   */
  lemma {:induction false} SegmentsWhenSomeText(reply: string)
    requires exists p <- Split(reply) :: !IsBlank(p)
    ensures Segments(reply) == TrimAll(NonBlank(Split(reply)))
    ensures forall t :: t in Segments(reply) <==> exists p <- Split(reply) :: !IsBlank(p) && Trim(p) == t
  {
    NoneKeptWhenAllBlank(Split(reply));
    assert Replies(reply) == NonBlank(Split(reply));
    KeptTexts(Split(reply));
  }

  /** The trimmed kept pieces are exactly the trims of the non-blank pieces. */
  lemma {:induction false} KeptTexts(pieces: seq<string>)
    ensures forall t :: t in TrimAll(NonBlank(pieces)) <==> exists p <- pieces :: !IsBlank(p) && Trim(p) == t
  {
    var kept := NonBlank(pieces);
    var texts := TrimAll(kept);
    forall t | t in texts ensures exists p <- pieces :: !IsBlank(p) && Trim(p) == t {
      var i :| 0 <= i < |kept| && texts[i] == t;
      var p := kept[i];
      assert p in kept;
      assert p in pieces && !IsBlank(p) && Trim(p) == t;
    }
    forall p | p in pieces && !IsBlank(p) ensures Trim(p) in texts {
      assert p in kept;
      var i :| 0 <= i < |kept| && kept[i] == p;
      assert texts[i] == Trim(p);
    }
  }

  /**
   * A reply built by joining non-blank, delimiter-free turns is shown as
   * exactly those turns, trimmed, in the same order.
   */
  lemma {:induction false} SegmentsOfJoin(turns: seq<string>)
    requires |turns| >= 1
    requires forall p <- turns :: DelimiterFree(p) && Trim(p) != ""
    ensures Segments(Join(turns)) == TrimAll(turns)
  {
    JoinThenSplit(turns);
    NonBlankKeepsAll(turns);
  }

  /** A reply made only of blank, delimiter-free turns falls back to the greeting. */
  lemma {:induction false} SegmentsOfBlankJoin(turns: seq<string>)
    requires |turns| >= 1
    requires forall p <- turns :: DelimiterFree(p) && IsBlank(p)
    ensures Segments(Join(turns)) == [GREETING]
  {
    JoinThenSplit(turns);
    FallbackWhenAllBlank(Join(turns));
  }

  /** A missing reply, an empty one and a bare delimiter each give the greeting alone. */
  lemma SegmentsOfEmptyReply()
    ensures Segments(ReplyText(None)) == [GREETING]
    ensures Segments("") == [GREETING]
    ensures Segments(DELIMITER) == [GREETING]
  {
    SegmentsOfBlankJoin([""]);
    assert Join(["", ""]) == DELIMITER;
    SegmentsOfBlankJoin(["", ""]);
  }

}
