/** Redacting the literals of SQL statements. A string stands for a sequence of bytes here. */
module SqlSanitize {
  import opened Options

  const REDACTED := "'?'"

  // ----- what the scanner computes, on the rest of the statement -----

  /** What follows a quoted string whose opening quote has been read. A doubled quote does not end it. */
  function AfterQuoted(s: string): (rest: string)
    ensures |rest| <= |s|
  {
    if s == "" then ""
    else if s[0] != '\'' then AfterQuoted(s[1..])
    else if |s| > 1 && s[1] == '\'' then AfterQuoted(s[2..])
    else s[1..]
  }

  predicate OccursAt(s: string, pattern: string, i: nat) {
    i + |pattern| <= |s| && s[i..i + |pattern|] == pattern
  }

  /** Where a pattern first occurs. */
  function Index(s: string, pattern: string): (i: Option<nat>)
    ensures i.Some? ==> OccursAt(s, pattern, i.value) && forall j :: 0 <= j < i.value ==> !OccursAt(s, pattern, j)
    ensures i.None? ==> forall j: nat :: !OccursAt(s, pattern, j)
  {
    if |s| < |pattern| then None
    else if s[..|pattern|] == pattern then Some(0)
    else
      var later := if s == "" then None else Index(s[1..], pattern);
      OccursInRest(s, pattern);
      if later.Some? then Some(later.value + 1) else None
  }

  lemma OccursInRest(s: string, pattern: string)
    requires |s| >= |pattern| && s[..|pattern|] != pattern
    ensures !OccursAt(s, pattern, 0)
    ensures s != "" ==> forall j: nat :: j > 0 ==> (OccursAt(s, pattern, j) <==> OccursAt(s[1..], pattern, j - 1))
  {
    if s != "" {
      forall j: nat | j > 0 ensures OccursAt(s, pattern, j) <==> OccursAt(s[1..], pattern, j - 1) {
        if j + |pattern| <= |s| {
          assert s[1..][j - 1..j - 1 + |pattern|] == s[j..j + |pattern|];
        }
      }
    }
  }

  /** What follows a dollar-quoted string, when there is one: a tag between two dollars, and the same tag again later. */
  function AfterDollarQuoted(s: string): (rest: Option<string>)
    requires s != "" && s[0] == '$'
    ensures rest.Some? ==> |rest.value| < |s| - 1
  {
    var tagEnd := Index(s[1..], "$");
    if tagEnd.None? then None
    else
      var tag, body := s[..tagEnd.value + 2], s[tagEnd.value + 2..];
      var bodyEnd := Index(body, tag);
      if bodyEnd.None? then None else Some(body[bodyEnd.value + |tag|..])
  }

  lemma AfterTags(s: string, k: nat, i: nat)
    requires s != "" && s[0] == '$' && Index(s[1..], "$") == Some(k - 2) && 2 <= k <= |s|
    requires Index(s[k..], s[..k]) == Some(i)
    ensures i + k <= |s[k..]| && AfterDollarQuoted(s) == Some(s[k..][i + k..])
  {
  }

  predicate IsRest(rest: string, s: string) {
    |rest| <= |s| && rest == s[|s| - |rest|..]
  }

  lemma {:induction false} AfterQuotedIsRest(s: string)
    ensures IsRest(AfterQuoted(s), s)
  {
    if s != "" && s[0] != '\'' {
      AfterQuotedIsRest(s[1..]);
    } else if |s| > 1 && s[1] == '\'' {
      AfterQuotedIsRest(s[2..]);
    }
  }

  lemma AfterDollarQuotedIsRest(s: string)
    requires s != "" && s[0] == '$' && AfterDollarQuoted(s).Some?
    ensures IsRest(AfterDollarQuoted(s).value, s)
  {
  }

  predicate IsEscapeString(s: string) {
    |s| > 1 && (s[0] == 'E' || s[0] == 'e') && s[1] == '\''
  }

  function Sanitized(s: string): string
    decreases |s|
  {
    if s == "" then ""
    else if s[0] == '$' && AfterDollarQuoted(s).Some? then REDACTED + Sanitized(AfterDollarQuoted(s).value)
    else if IsEscapeString(s) then REDACTED + Sanitized(AfterQuoted(s[2..]))
    else if s[0] == '\'' then REDACTED + Sanitized(AfterQuoted(s[1..]))
    else [s[0]] + Sanitized(s[1..])
  }

  // ----- the scanner -----

  lemma QuotedStep(sql: string, i: nat)
    requires i < |sql|
    ensures AfterQuoted(sql[i..])
            == if sql[i] != '\'' then AfterQuoted(sql[i + 1..])
               else if i + 1 < |sql| && sql[i + 1] == '\'' then AfterQuoted(sql[i + 2..])
               else sql[i + 1..]
  {
    assert sql[i..][1..] == sql[i + 1..];
    assert i + 1 < |sql| ==> sql[i..][2..] == sql[i + 2..];
  }

  /** The end of the quoted string that starts at a position; the end of the statement when it is not closed. */
  method ReadSingleQuotedString(sql: string, start: nat) returns (end: nat)
    ensures start < end
    ensures start < |sql| ==> end <= |sql|
    ensures start < |sql| && sql[start] == '\'' ==> sql[end..] == AfterQuoted(sql[start + 1..])
    ensures start >= |sql| || sql[start] != '\'' ==> end == start + 1
  {
    if start >= |sql| || sql[start] != '\'' {
      return start + 1;
    }
    var i := start + 1;
    while i < |sql|
      invariant start < i <= |sql|
      invariant AfterQuoted(sql[i..]) == AfterQuoted(sql[start + 1..])
    {
      QuotedStep(sql, i);
      if sql[i] != '\'' {
        i := i + 1;
        continue;
      }
      if i + 1 < |sql| && sql[i + 1] == '\'' {
        i := i + 2;
        continue;
      }
      return i + 1;
    }
    return |sql|;
  }

  lemma DropTwice(s: string, i: nat, k: nat)
    requires i + k <= |s|
    ensures s[i..][k..] == s[i + k..]
  {
  }

  lemma TagAndBody(sql: string, start: nat, tagEnd: nat)
    requires start < tagEnd < |sql|
    ensures sql[start..][1..] == sql[start + 1..]
    ensures sql[start..][..tagEnd - start + 1] == sql[start..tagEnd + 1]
    ensures sql[start..][tagEnd - start + 1..] == sql[tagEnd + 1..]
  {
  }

  lemma NoClosingTag(sql: string, start: nat, tagEnd: nat)
    requires start < tagEnd < |sql| && sql[start] == '$' && Index(sql[start + 1..], "$") == Some(tagEnd - start - 1)
    requires Index(sql[tagEnd + 1..], sql[start..tagEnd + 1]).None?
    ensures AfterDollarQuoted(sql[start..]).None?
  {
    TagAndBody(sql, start, tagEnd);
  }

  lemma ClosingTag(sql: string, start: nat, tagEnd: nat, bodyEnd: nat, end: nat)
    requires start < tagEnd < |sql| && sql[start] == '$' && Index(sql[start + 1..], "$") == Some(tagEnd - start - 1)
    requires Index(sql[tagEnd + 1..], sql[start..tagEnd + 1]) == Some(bodyEnd)
    requires end == tagEnd + 1 + bodyEnd + (tagEnd + 1 - start)
    ensures end <= |sql| && AfterDollarQuoted(sql[start..]) == Some(sql[end..])
  {
    var s, k := sql[start..], tagEnd - start + 1;
    assert AfterDollarQuoted(s) == Some(s[k..][bodyEnd + k..]) by {
      TagAndBody(sql, start, tagEnd);
      AfterTags(s, k, bodyEnd);
    }
    assert s[k..][bodyEnd + k..] == sql[end..] by {
      TagAndBody(sql, start, tagEnd);
      DropTwice(sql, tagEnd + 1, bodyEnd + k);
    }
  }

  lemma NoSecondDollar(sql: string, start: nat)
    requires start < |sql| && sql[start] == '$' && Index(sql[start + 1..], "$").None?
    ensures AfterDollarQuoted(sql[start..]).None?
  {
    DropTwice(sql, start, 1);
  }

  /** The end of the dollar-quoted string that starts at a position, if one does. */
  method ReadDollarQuotedString(sql: string, start: nat) returns (end: nat, ok: bool)
    ensures ok ==> start < |sql| && sql[start] == '$' && start < end <= |sql|
    ensures ok ==> AfterDollarQuoted(sql[start..]) == Some(sql[end..])
    ensures !ok ==> end == start && (start < |sql| && sql[start] == '$' ==> AfterDollarQuoted(sql[start..]).None?)
  {
    if start >= |sql| || sql[start] != '$' {
      return start, false;
    }
    var found := Index(sql[start + 1..], "$");
    if found.None? {
      NoSecondDollar(sql, start);
      return start, false;
    }
    var tagEnd := found.value + start + 1;
    var tag := sql[start..tagEnd + 1];
    if tag == "$$" {
      var bodyEnd := Index(sql[tagEnd + 1..], "$$");
      if bodyEnd.None? {
        NoClosingTag(sql, start, tagEnd);
        return start, false;
      }
      ClosingTag(sql, start, tagEnd, bodyEnd.value, tagEnd + 1 + bodyEnd.value + 2);
      return tagEnd + 1 + bodyEnd.value + 2, true;
    }
    var bodyEnd := Index(sql[tagEnd + 1..], tag);
    if bodyEnd.None? {
      NoClosingTag(sql, start, tagEnd);
      return start, false;
    }
    ClosingTag(sql, start, tagEnd, bodyEnd.value, tagEnd + 1 + bodyEnd.value + |tag|);
    return tagEnd + 1 + bodyEnd.value + |tag|, true;
  }

  lemma OneMoreToken(done: string, s: string, token: string, rest: string)
    requires Sanitized(s) == token + Sanitized(rest)
    ensures done + Sanitized(s) == (done + token) + Sanitized(rest)
  {
  }

  method SanitizeSQLStatement(sql: string) returns (sanitized: string)
    ensures sanitized == Sanitized(sql)
  {
    if sql == "" {
      return sql;
    }
    var builder := "";
    var i := 0;
    while i < |sql|
      invariant i <= |sql|
      invariant builder + Sanitized(sql[i..]) == Sanitized(sql)
    {
      ghost var s := sql[i..];
      assert s[1..] == sql[i + 1..];
      if sql[i] == '$' {
        var end, ok := ReadDollarQuotedString(sql, i);
        if ok {
          OneMoreToken(builder, s, REDACTED, sql[end..]);
          builder := builder + REDACTED;
          i := end;
          continue;
        }
      }
      if (sql[i] == 'E' || sql[i] == 'e') && i + 1 < |sql| && sql[i + 1] == '\'' {
        var end := ReadSingleQuotedString(sql, i + 1);
        assert s[2..] == sql[i + 2..];
        OneMoreToken(builder, s, REDACTED, sql[end..]);
        builder := builder + REDACTED;
        i := end;
        continue;
      }
      if sql[i] == '\'' {
        var end := ReadSingleQuotedString(sql, i);
        OneMoreToken(builder, s, REDACTED, sql[end..]);
        var literal := sql[i..end];
        if literal == REDACTED {
          builder := builder + literal;
        } else {
          builder := builder + REDACTED;
        }
        i := end;
        continue;
      }
      OneMoreToken(builder, s, [sql[i]], sql[i + 1..]);
      builder := builder + [sql[i]];
      i := i + 1;
    }
    return builder;
  }

  // ----- the shape of the output -----

  /** A piece of the output: a redacted literal, or one byte of the input. */
  datatype Piece = Redacted | Kept(index: nat)

  function Render(s: string, pieces: seq<Piece>): string
    requires forall p :: p in pieces && p.Kept? ==> p.index < |s|
  {
    if pieces == [] then ""
    else
      assert pieces[0] in pieces;
      (if pieces[0].Kept? then [s[pieces[0].index]] else REDACTED) + Render(s, pieces[1..])
  }

  /** Bytes are kept in their order, each at most once, and no quote is kept. */
  ghost predicate KeepsInOrder(s: string, pieces: seq<Piece>, from: nat) {
    && (forall p :: p in pieces && p.Kept? ==> from <= p.index < |s| && s[p.index] != '\'')
    && (forall i, j :: 0 <= i < j < |pieces| && pieces[i].Kept? && pieces[j].Kept? ==> pieces[i].index < pieces[j].index)
  }

  lemma RestOfRest(s: string, from: nat, k: nat, rest: string)
    requires from + k <= |s| && IsRest(rest, s[from..][k..])
    ensures IsRest(rest, s) && |rest| <= |s| - from - k
  {
    DropTwice(s, from, k);
    DropTwice(s, from + k, |s| - from - k - |rest|);
  }

  /** A literal at a position, and what follows it. */
  predicate LiteralAt(s: string, from: nat, rest: string)
    requires from < |s|
  {
    var t := s[from..];
    && |rest| < |t| && IsRest(rest, s)
    && Sanitized(t) == REDACTED + Sanitized(rest)
  }

  lemma LiteralOrByte(s: string, from: nat) returns (rest: Option<string>)
    requires from < |s|
    ensures rest.Some? ==> LiteralAt(s, from, rest.value)
    ensures rest.None? ==> s[from] != '\'' && Sanitized(s[from..]) == [s[from]] + Sanitized(s[from + 1..])
  {
    var t := s[from..];
    if t[0] == '$' && AfterDollarQuoted(t).Some? {
      AfterDollarQuotedIsRest(t);
      RestOfRest(s, from, 0, AfterDollarQuoted(t).value);
      return AfterDollarQuoted(t);
    } else if IsEscapeString(t) {
      AfterQuotedIsRest(t[2..]);
      RestOfRest(s, from, 2, AfterQuoted(t[2..]));
      return Some(AfterQuoted(t[2..]));
    } else if t[0] == '\'' {
      AfterQuotedIsRest(t[1..]);
      RestOfRest(s, from, 1, AfterQuoted(t[1..]));
      return Some(AfterQuoted(t[1..]));
    } else {
      DropTwice(s, from, 1);
      return None;
    }
  }

  /** The output consists of redacted literals and of bytes of the input other than quotes, in their order. */
  lemma {:induction false} OutputPieces(s: string, from: nat) returns (pieces: seq<Piece>)
    requires from <= |s|
    ensures KeepsInOrder(s, pieces, from)
    ensures Sanitized(s[from..]) == Render(s, pieces)
    decreases |s| - from
  {
    if from == |s| {
      pieces := [];
      assert s[from..] == "" && Render(s, pieces) == "";
    } else {
      var rest := LiteralOrByte(s, from);
      var first := if rest.Some? then Redacted else Kept(from);
      var next := if rest.Some? then |s| - |rest.value| else from + 1;
      var later := OutputPieces(s, next);
      pieces := [first] + later;
      FirstPiece(s, from, first, later, next);
    }
  }

  lemma FirstPiece(s: string, from: nat, first: Piece, later: seq<Piece>, next: nat)
    requires from < next <= |s| && KeepsInOrder(s, later, next)
    requires first.Kept? ==> first.index == from && s[from] != '\''
    ensures KeepsInOrder(s, [first] + later, from)
    ensures Render(s, [first] + later) == (if first.Kept? then [s[first.index]] else REDACTED) + Render(s, later)
  {
    var pieces := [first] + later;
    assert pieces[1..] == later;
    assert forall p :: p in pieces <==> p == first || p in later;
    assert forall i :: 0 <= i < |later| ==> later[i] in later;
  }

  // ----- what a literal holds does not show -----

  /** A string literal's body with its quotes doubled. */
  function Escaped(body: string): string {
    if body == "" then ""
    else if body[0] == '\'' then "''" + Escaped(body[1..])
    else [body[0]] + Escaped(body[1..])
  }

  lemma {:induction false} EscapedIsSkipped(body: string, post: string)
    requires post == "" || post[0] != '\''
    ensures AfterQuoted(Escaped(body) + "'" + post) == post
  {
    var s := Escaped(body) + "'" + post;
    if body == "" {
      assert s[1..] == post;
    } else {
      EscapedIsSkipped(body[1..], post);
      var rest := Escaped(body[1..]) + "'" + post;
      if body[0] == '\'' {
        assert s == "''" + rest;
        assert s[2..] == rest;
      } else {
        assert s == [body[0]] + rest;
        assert s[1..] == rest;
      }
    }
  }

  lemma QuotedHead(s: string, rest: string)
    ensures s == "'" + rest ==> Sanitized(s) == REDACTED + Sanitized(AfterQuoted(rest))
    ensures s == "E'" + rest || s == "e'" + rest ==> Sanitized(s) == REDACTED + Sanitized(AfterQuoted(rest))
  {
    assert s == "'" + rest ==> s[1..] == rest;
    assert s == "E'" + rest || s == "e'" + rest ==> s[2..] == rest;
  }

  /** A literal that the scanner arrives at is redacted as a whole, whatever its body. */
  lemma LiteralIsRedacted(body: string, post: string)
    requires post == "" || post[0] != '\''
    ensures Sanitized("'" + (Escaped(body) + "'" + post)) == "'?'" + Sanitized(post)
    ensures Sanitized("E'" + (Escaped(body) + "'" + post)) == "'?'" + Sanitized(post)
    ensures Sanitized("e'" + (Escaped(body) + "'" + post)) == "'?'" + Sanitized(post)
  {
    EscapedIsSkipped(body, post);
    var rest := Escaped(body) + "'" + post;
    QuotedHead("'" + rest, rest);
    QuotedHead("E'" + rest, rest);
    QuotedHead("e'" + rest, rest);
  }

  /** A literal that is never closed is redacted up to the end of the statement. */
  lemma UnclosedIsRedacted(body: string)
    requires Paired(body)
    ensures Sanitized("'" + body) == Sanitized("E'" + body) == Sanitized("e'" + body) == "'?'"
  {
    UnclosedRunsOn(body, "");
    assert body + "" == body;
    QuotedHead("'" + body, body);
    QuotedHead("E'" + body, body);
    QuotedHead("e'" + body, body);
  }

  /**
   * Every other byte is kept where it is: what is no quote, no E or e right before a quote, and no dollar of a tag that
   * occurs again. With the lemmas about literals this determines the output for every statement.
   */
  lemma OtherByteIsKept(c: char, rest: string)
    requires c != '\'' && !(c in "Ee" && rest != "" && rest[0] == '\'')
    requires c == '$' ==> !exists k, j :: TagAgain(rest, k, j)
    ensures Sanitized("") == "" && Sanitized([c] + rest) == [c] + Sanitized(rest)
  {
    var s := [c] + rest;
    assert s[1..] == rest;
    assert "Ee"[0] == 'E' && "Ee"[1] == 'e';
    if c == '$' {
      NeverClosed(rest);
    }
  }

  /** Behind a first dollar: the next one ends a tag, and the tag occurs again. */
  ghost predicate TagAgain(rest: string, k: nat, j: nat) {
    && k < |rest| && rest[k] == '$' && '$' !in rest[..k]
    && OccursAt(rest[k + 1..], "$" + rest[..k] + "$", j)
  }

  lemma DollarAt(s: string, i: nat)
    requires i < |s|
    ensures OccursAt(s, "$", i) <==> s[i] == '$'
  {
    assert s[i..i + 1] == [s[i]];
  }

  lemma BeforeFirst(rest: string, k: nat)
    requires OccursAt(rest, "$", k) && forall i :: 0 <= i < k ==> !OccursAt(rest, "$", i)
    ensures k < |rest| && rest[k] == '$' && '$' !in rest[..k]
  {
    DollarAt(rest, k);
    forall i | 0 <= i < k ensures rest[i] != '$' {
      DollarAt(rest, i);
    }
  }

  lemma NeverClosed(rest: string)
    requires !exists k, j :: TagAgain(rest, k, j)
    ensures AfterDollarQuoted("$" + rest).None?
  {
    var s, tagEnd := "$" + rest, Index(rest, "$");
    assert s[1..] == rest;
    if tagEnd.Some? {
      var k := tagEnd.value;
      var tag := "$" + rest[..k] + "$";
      BeforeFirst(rest, k);
      if Index(rest[k + 1..], tag).Some? {
        assert TagAgain(rest, k, Index(rest[k + 1..], tag).value);
      }
      assert s[..k + 2] == tag && s[k + 2..] == rest[k + 1..];
    }
  }

  // ----- escape strings -----

  /** The quotes of a body come in pairs: every run of them is even. */
  predicate Paired(body: string) {
    || body == ""
    || (body[0] != '\'' && Paired(body[1..]))
    || (|body| > 1 && body[0] == '\'' && body[1] == '\'' && Paired(body[2..]))
  }

  /** A body ends in a quote, without which its quotes come in pairs. */
  predicate PairedButLast(body: string) {
    body != "" && body[|body| - 1] == '\'' && Paired(body[..|body| - 1])
  }

  lemma InsideBody(body: string, k: nat, post: string)
    requires k <= |body|
    ensures (body + "'" + post)[k..] == body[k..] + "'" + post
    ensures k < |body| ==> body[k..][..|body[k..]| - 1] == body[..|body| - 1][k..]
    ensures k < |body| ==> (body + "'" + post)[k] == body[k] && body[k..][|body[k..]| - 1] == body[|body| - 1]
  {
  }

  lemma {:induction false} QuotedGetsShorter(s: string)
    requires s != ""
    ensures |AfterQuoted(s)| < |s|
  {
  }

  /**
   * Whatever escapes a literal uses, the scanner skips just its body and the closing quote exactly when the body's quotes
   * come in pairs. When only the last quote is left over, it goes on into what follows, if anything does.
   */
  lemma {:induction false} BodyIsSkippedIff(body: string, post: string)
    requires post == "" || post[0] != '\''
    ensures AfterQuoted(body + "'" + post) == post <==> Paired(body) || (PairedButLast(body) && post == "")
    decreases |body|
  {
    var s := body + "'" + post;
    if body == "" {
      assert s[1..] == post;
    } else if body[0] != '\'' {
      InsideBody(body, 1, post);
      BodyIsSkippedIff(body[1..], post);
      assert |body| > 1 ==> body[..|body| - 1][0] == body[0];
    } else if |body| == 1 {
      assert s[2..] == post && s[1] == '\'';
      if post != "" {
        QuotedGetsShorter(post);
      }
    } else if body[1] != '\'' {
      InsideBody(body, 1, post);
      assert |AfterQuoted(s)| == |body[1..] + "'" + post| && !Paired(body);
      assert |body| > 2 ==> body[..|body| - 1][1] == body[1];
    } else {
      InsideBody(body, 2, post);
      InsideBody(body, 1, post);
      BodyIsSkippedIff(body[2..], post);
      assert |body| > 2 ==> body[..|body| - 1][0] == body[0] && body[..|body| - 1][1] == body[1];
    }
  }

  /** A value as the body of an escape string, with a backslash before each quote and each backslash. */
  function Backslashed(value: string): string {
    if value == "" then ""
    else if value[0] == '\'' || value[0] == '\\' then ['\\', value[0]] + Backslashed(value[1..])
    else [value[0]] + Backslashed(value[1..])
  }

  /** With backslashes, a value's quotes never come in pairs. */
  lemma {:induction false} BackslashedIsPairedIff(value: string)
    ensures Paired(Backslashed(value)) <==> '\'' !in value
  {
    if value != "" {
      var body, rest := Backslashed(value), Backslashed(value[1..]);
      BackslashedIsPairedIff(value[1..]);
      assert value == [value[0]] + value[1..];
      if value[0] == '\'' {
        assert body[1..][0] == '\'' && (rest != "" ==> body[1..][1] == rest[0]);
        BackslashedNeverStartsWithQuote(value[1..]);
      } else if value[0] == '\\' {
        assert body[1..][0] == '\\' && body[1..][1..] == rest;
      } else {
        assert body[1..] == rest;
      }
    }
  }

  lemma BackslashedNeverStartsWithQuote(value: string)
    ensures Backslashed(value) != "" ==> Backslashed(value)[0] != '\''
  {
  }

  /** Followed by anything, an escape string written with backslashes is skipped as a whole iff its value has no quote. */
  lemma BackslashedIsSkippedIff(value: string, post: string)
    requires post != "" && post[0] != '\''
    ensures AfterQuoted(Backslashed(value) + "'" + post) == post <==> '\'' !in value
  {
    BodyIsSkippedIff(Backslashed(value), post);
    BackslashedIsPairedIff(value);
  }

  /** The first quote with a backslash before it ends the scan: what follows it is read as a statement. */
  lemma EscapedQuoteEndsScan(before: string, rest: string)
    requires '\'' !in before && rest != "" && rest[0] != '\''
    ensures Sanitized("E'" + (before + "\\'" + rest)) == "'?'" + Sanitized(rest)
  {
    var tail := before + "\\'" + rest;
    QuotedHead("E'" + tail, tail);
    assert tail == (before + "\\") + ("'" + rest);
    QuoteFreeIsSkipped(before + "\\", "'" + rest);
    assert ("'" + rest)[1..] == rest;
  }

  /** Bytes that cannot begin a literal are kept in front of an unclosed one. */
  lemma {:induction false} ShownBeforeQuote(shown: string)
    requires '$' !in shown && '\'' !in shown
    requires shown == "" || shown[|shown| - 1] !in "Ee"
    ensures Sanitized(shown + "'") == shown + REDACTED
  {
    var s := shown + "'";
    if shown == "" {
      assert s[1..] == "" && Sanitized("") == "";
      assert AfterQuoted("") == "";
    } else {
      assert shown[0] in shown && forall c :: c in shown[1..] ==> c in shown;
      ShownBeforeQuote(shown[1..]);
      assert s[1..] == shown[1..] + "'";
      assert |shown| > 1 ==> s[1] == shown[1] && shown[1] in shown;
      assert !IsEscapeString(s);
    }
  }

  /** So a secret after an escaped quote shows. */
  lemma EscapedQuoteShowsSecret(before: string, secret: string)
    requires '\'' !in before && '$' !in secret && '\'' !in secret
    requires secret != "" && secret[|secret| - 1] !in "Ee"
    ensures Sanitized("E'" + (before + "\\'" + (secret + "'"))) == REDACTED + (secret + REDACTED)
  {
    var rest := secret + "'";
    assert rest[0] == secret[0] && secret[0] in secret;
    EscapedQuoteEndsScan(before, rest);
    ShownBeforeQuote(secret);
  }

  /** A dollar-quoted string is redacted as a whole, when its tag first occurs again where the body ends. */
  lemma DollarLiteralIsRedacted(name: string, tag: string, body: string, post: string)
    requires '$' !in name && tag == "$" + name + "$"
    requires Index(body + tag + post, tag) == Some(|body|)
    ensures Sanitized(tag + (body + tag + post)) == "'?'" + Sanitized(post)
  {
    var rest := body + tag + post;
    FirstDollar(name, rest);
    AfterTag(name, tag, rest);
    assert rest[|body| + |tag|..] == post;
  }

  lemma AfterTag(name: string, tag: string, rest: string)
    requires tag == "$" + name + "$"
    ensures (tag + rest)[1..] == name + "$" + rest
    ensures (tag + rest)[..|name| + 2] == tag && (tag + rest)[|name| + 2..] == rest
  {
  }

  lemma FirstDollar(name: string, rest: string)
    requires '$' !in name
    ensures Index(name + "$" + rest, "$") == Some(|name|)
  {
    var s := name + "$" + rest;
    assert OccursAt(s, "$", |name|);
    forall j | 0 <= j < |name| ensures !OccursAt(s, "$", j) {
      assert s[j] == name[j] && name[j] in name;
      assert s[j..j + 1][0] == s[j];
    }
  }

  // ----- what comes before a literal -----

  /** A literal with its quotes doubled, and what follows it. */
  function Literal(body: string, post: string): string {
    "'" + (Escaped(body) + "'" + post)
  }

  predicate StartsQuoted(s: string) {
    s != "" && (s[0] == '\'' || IsEscapeString(s))
  }

  /** What a quoted literal at the beginning holds, and what follows. */
  function BehindQuote(s: string): string
    requires StartsQuoted(s)
  {
    if IsEscapeString(s) then s[2..] else s[1..]
  }

  /** The text begins with a dollar that makes no literal, or with a literal that is not closed. */
  predicate StartsOpen(pre: string) {
    && pre != ""
    && if pre[0] == '$' then AfterDollarQuoted(pre).None? else StartsQuoted(pre) && Paired(BehindQuote(pre))
  }

  /** What the first byte of the text, or the literal that it begins with, leaves. */
  function FirstLeft(pre: string): string
    requires pre != ""
  {
    if pre[0] == '$' || StartsQuoted(pre) then REDACTED else [pre[0]]
  }

  /** The text behind that. */
  function Later(pre: string): (rest: string)
    requires pre != "" && !StartsOpen(pre)
    ensures |rest| < |pre|
  {
    if pre[0] == '$' then AfterDollarQuoted(pre).value
    else if StartsQuoted(pre) then AfterQuoted(BehindQuote(pre))
    else pre[1..]
  }

  /** Every dollar of the text belongs to a literal, and every literal of the text is closed in it. */
  predicate Covered(pre: string)
    decreases |pre|
  {
    pre == "" || (!StartsOpen(pre) && Covered(Later(pre)))
  }

  /** The text is a quoted literal, or the letter before one: a literal right behind it becomes one with it. */
  predicate Joins(pre: string) {
    pre == "E" || pre == "e" || (StartsQuoted(pre) && AfterQuoted(BehindQuote(pre)) == "")
  }

  /** What is left of a covered text and a literal behind it. */
  function Head(pre: string): string
    requires Covered(pre)
    decreases |pre|
  {
    if pre == "" || Joins(pre) then REDACTED else FirstLeft(pre) + Head(Later(pre))
  }

  lemma Behind(pre: string, k: nat, x: string)
    requires k <= |pre|
    ensures (pre + x)[k..] == pre[k..] + x && (k < |pre| ==> (pre + x)[k] == pre[k])
  {
  }

  lemma {:induction false} UnclosedRunsOn(w: string, x: string)
    requires Paired(w)
    ensures AfterQuoted(w + x) == AfterQuoted(x)
    decreases |w|
  {
    if w == "" {
      assert w + x == x;
    } else if w[0] != '\'' {
      Behind(w, 1, x);
      UnclosedRunsOn(w[1..], x);
    } else {
      Behind(w, 1, x);
      Behind(w, 2, x);
      UnclosedRunsOn(w[2..], x);
    }
  }

  lemma {:induction false} ClosedEndsThere(w: string, x: string)
    requires !Paired(w) && x != "" && x[0] == '\''
    ensures AfterQuoted(w + x) == if AfterQuoted(w) == "" then AfterQuoted(x[1..]) else AfterQuoted(w) + x
    decreases |w|
  {
    Behind(w, 1, x);
    if w[0] != '\'' {
      ClosedEndsThere(w[1..], x);
    } else if |w| == 1 {
      assert (w + x)[1] == x[0] && (w + x)[2..] == x[1..];
    } else if w[1] == '\'' {
      Behind(w, 2, x);
      ClosedEndsThere(w[2..], x);
    }
  }

  lemma OccursInFront(s: string, x: string, pattern: string, j: nat)
    requires j + |pattern| <= |s|
    ensures OccursAt(s + x, pattern, j) <==> OccursAt(s, pattern, j)
  {
    assert (s + x)[j..j + |pattern|] == s[j..j + |pattern|];
  }

  lemma IndexExtends(s: string, x: string, pattern: string)
    requires Index(s, pattern).Some?
    ensures Index(s + x, pattern) == Index(s, pattern)
  {
    var i := Index(s, pattern).value;
    forall j: nat | j <= i ensures OccursAt(s + x, pattern, j) <==> OccursAt(s, pattern, j) {
      OccursInFront(s, x, pattern, j);
    }
  }

  lemma IndexInFront(s: string, m: nat, pattern: string)
    requires Index(s, pattern).Some? && Index(s, pattern).value + |pattern| <= m <= |s|
    ensures Index(s[..m], pattern) == Index(s, pattern)
  {
    var i := Index(s, pattern).value;
    assert s == s[..m] + s[m..];
    forall j: nat | j <= i ensures OccursAt(s, pattern, j) <==> OccursAt(s[..m], pattern, j) {
      OccursInFront(s[..m], s[m..], pattern, j);
    }
  }

  lemma TagExtends(pre: string, x: string, k: nat)
    requires 0 < k <= |pre|
    ensures (pre + x)[..k] == pre[..k] && (pre + x)[k..] == pre[k..] + x && (pre + x)[1..] == pre[1..] + x
  {
  }

  lemma DollarExtends(pre: string, x: string)
    requires pre != "" && pre[0] == '$' && AfterDollarQuoted(pre).Some?
    ensures AfterDollarQuoted(pre + x) == Some(AfterDollarQuoted(pre).value + x)
  {
    var k := Index(pre[1..], "$").value + 2;
    var i := Index(pre[k..], pre[..k]).value;
    TagExtends(pre, x, k);
    IndexExtends(pre[1..], x, "$");
    IndexExtends(pre[k..], x, pre[..k]);
    AfterTags(pre, k, i);
    AfterTags(pre + x, k, i);
    Behind(pre[k..], i + k, x);
  }

  lemma DollarFirst(pre: string, x: string)
    requires pre != "" && pre[0] == '$' && !StartsOpen(pre)
    ensures Sanitized(pre + x) == REDACTED + Sanitized(Later(pre) + x)
  {
    DollarExtends(pre, x);
    assert (pre + x)[0] == '$';
  }

  lemma QuotedFirst(pre: string, body: string, post: string)
    requires StartsQuoted(pre) && !StartsOpen(pre) && (post == "" || post[0] != '\'')
    ensures Sanitized(pre + Literal(body, post))
            == REDACTED + if Joins(pre) then Sanitized(post) else Sanitized(Later(pre) + Literal(body, post))
  {
    Behind(pre, 1, Literal(body, post));
    Behind(pre, |pre| - |BehindQuote(pre)|, Literal(body, post));
    BehindClosed(BehindQuote(pre), body, post);
    assert |pre| > 1 ==> (pre + Literal(body, post))[1] == pre[1];
  }

  lemma ByteFirst(pre: string, x: string)
    requires pre != "" && pre[0] != '$' && !StartsQuoted(pre) && !Joins(pre)
    ensures Sanitized(pre + x) == [pre[0]] + Sanitized(pre[1..] + x)
  {
    Behind(pre, 1, x);
    assert |pre| == 1 ==> pre == [pre[0]];
    assert |pre| > 1 ==> (pre + x)[1] == pre[1];
  }

  lemma LiteralAfterE(pre: string, body: string, post: string)
    requires (pre == "E" || pre == "e") && (post == "" || post[0] != '\'')
    ensures Sanitized(pre + Literal(body, post)) == REDACTED + Sanitized(post)
  {
    var s := pre + Literal(body, post);
    assert s[0] == pre[0] && s[1] == '\'' && s[2..] == Escaped(body) + "'" + post;
    EscapedIsSkipped(body, post);
  }

  lemma FirstIsLeft(pre: string, body: string, post: string)
    requires pre != "" && !StartsOpen(pre) && (post == "" || post[0] != '\'')
    ensures Sanitized(pre + Literal(body, post))
            == if Joins(pre) then REDACTED + Sanitized(post) else FirstLeft(pre) + Sanitized(Later(pre) + Literal(body, post))
  {
    if pre[0] == '$' {
      DollarFirst(pre, Literal(body, post));
    } else if StartsQuoted(pre) {
      QuotedFirst(pre, body, post);
    } else if Joins(pre) {
      LiteralAfterE(pre, body, post);
    } else {
      ByteFirst(pre, Literal(body, post));
    }
  }

  /** Behind a covered text every literal is redacted as a whole: neither its body nor what follows changes what is before. */
  lemma {:induction false} CoveredIsRedacted(pre: string, body: string, post: string)
    requires Covered(pre) && (post == "" || post[0] != '\'')
    ensures Sanitized(pre + Literal(body, post)) == Head(pre) + Sanitized(post)
    decreases |pre|
  {
    if pre == "" {
      assert pre + Literal(body, post) == Literal(body, post);
      LiteralIsRedacted(body, post);
    } else {
      FirstIsLeft(pre, body, post);
      if !Joins(pre) {
        CoveredIsRedacted(Later(pre), body, post);
        OneMoreToken(FirstLeft(pre), Later(pre) + Literal(body, post), Head(Later(pre)), post);
      }
    }
  }

  lemma BehindClosed(w: string, body: string, post: string)
    requires !Paired(w) && (post == "" || post[0] != '\'')
    ensures AfterQuoted(w + Literal(body, post)) == if AfterQuoted(w) == "" then post else AfterQuoted(w) + Literal(body, post)
  {
    var x := Literal(body, post);
    ClosedEndsThere(w, x);
    assert x[1..] == Escaped(body) + "'" + post;
    EscapedIsSkipped(body, post);
  }

  /** Whatever the body of a literal behind the text, and whatever follows it, the text and the literal leave the same. */
  ghost predicate RedactedAs(pre: string, head: string) {
    forall body, post ::
      post == "" || post[0] != '\'' ==> Sanitized(pre + Literal(body, post)) == head + Sanitized(post)
  }

  lemma StartsApart(a: string, b: string, rest: string, other: string)
    requires a != "" && b != "" && a[0] != b[0]
    ensures a + rest != b + other
  {
    assert (a + rest)[0] == a[0] && (b + other)[0] == b[0];
  }

  lemma EmptyLiteral()
    ensures Literal("", "") == "''" && AfterQuoted("''") == "" && Sanitized("") == ""
  {
    assert Escaped("") == "" && "''"[2..] == "";
  }

  lemma NoDollarMore(pre: string)
    requires pre != "" && pre[0] == '$' && AfterDollarQuoted(pre).None?
    ensures AfterDollarQuoted(pre + "''").None?
  {
    var s := pre + "''";
    Behind(pre, 1, "''");
    if Index(pre[1..], "$").None? {
      NoOccurrenceMore(pre[1..], "$");
    } else {
      var k := Index(pre[1..], "$").value + 2;
      IndexExtends(pre[1..], "''", "$");
      Behind(pre, k, "''");
      assert s[..k] == pre[..k] && pre[..k][k - 1] == '$';
      NoOccurrenceMore(pre[k..], pre[..k]);
    }
  }

  lemma NoOccurrenceMore(s: string, pattern: string)
    requires Index(s, pattern).None? && pattern != "" && pattern[|pattern| - 1] == '$'
    ensures Index(s + "''", pattern).None?
  {
    forall j: nat ensures !OccursAt(s + "''", pattern, j) {
      if j + |pattern| <= |s| {
        OccursInFront(s, "''", pattern, j);
      } else if j + |pattern| <= |s| + 2 {
        EndsInQuote(s, pattern, j);
      }
    }
  }

  lemma EndsInQuote(s: string, pattern: string, j: nat)
    requires pattern != "" && pattern[|pattern| - 1] == '$' && |s| < j + |pattern| <= |s| + 2
    ensures !OccursAt(s + "''", pattern, j)
  {
    var t := s + "''";
    assert t[j..j + |pattern|][|pattern| - 1] == t[j + |pattern| - 1] == '\'';
  }

  lemma NoDollarIn(s: string)
    requires Index(s, "$").None?
    ensures '$' !in s
  {
    forall j | 0 <= j < |s| ensures s[j] != '$' {
      assert !OccursAt(s, "$", j);
      assert s[j..j + 1] == [s[j]];
    }
  }

  /** A dollar that belongs to no literal can make a tag with a dollar of the literal behind, or of what follows. */
  lemma DollarCloses(pre: string) returns (body: string, post: string)
    requires pre != "" && pre[0] == '$' && AfterDollarQuoted(pre).None?
    ensures post == "" || post[0] != '\''
    ensures AfterDollarQuoted(pre + Literal(body, post)).Some?
  {
    if Index(pre[1..], "$").None? {
      body, post := "$", pre + "'$";
      OneDollarCloses(pre);
    } else {
      var k := Index(pre[1..], "$").value + 2;
      body, post := "", pre[..k];
      TwoDollarsClose(pre, k);
    }
  }

  lemma OneTagTwice(pre: string, tag: string)
    requires pre != "" && tag == pre + "'$"
    ensures tag[1..] == pre[1..] + "'" + "$" + ""
    ensures pre + ("'" + ("$" + "'" + tag)) == tag + ("'" + tag)
  {
    assert pre + ("'" + ("$" + "'" + tag)) == pre + "'$" + ("'" + tag);
  }

  lemma OneDollarCloses(pre: string)
    requires pre != "" && pre[0] == '$' && Index(pre[1..], "$").None?
    ensures AfterDollarQuoted(pre + Literal("$", pre + "'$")).Some?
  {
    var tag := pre + "'$";
    NoDollarIn(pre[1..]);
    FirstDollar(pre[1..] + "'", "");
    OneTagTwice(pre, tag);
    TagCloses(tag, "'");
    QuoteFreeIsEscaped("$");
  }

  lemma TwoTags(pre: string, k: nat)
    requires 2 <= k <= |pre|
    ensures pre[..k][1..] == pre[1..][..k - 1]
    ensures pre + ("'" + ("" + "'" + pre[..k])) == pre[..k] + (pre[k..] + "''" + pre[..k])
  {
    assert pre == pre[..k] + pre[k..];
  }

  lemma TwoDollarsClose(pre: string, k: nat)
    requires pre != "" && pre[0] == '$' && Index(pre[1..], "$") == Some(k - 2) && 2 <= k
    ensures k <= |pre| && AfterDollarQuoted(pre + Literal("", pre[..k])).Some?
  {
    IndexInFront(pre[1..], k - 1, "$");
    TwoTags(pre, k);
    TagCloses(pre[..k], pre[k..] + "''");
    QuoteFreeIsEscaped("");
  }

  lemma TagCloses(tag: string, between: string)
    requires |tag| >= 2 && tag[0] == '$' && Index(tag[1..], "$") == Some(|tag| - 2)
    ensures AfterDollarQuoted(tag + (between + tag)).Some?
  {
    var rest := between + tag;
    Behind(tag, 1, rest);
    IndexExtends(tag[1..], rest, "$");
    assert (tag + rest)[..|tag|] == tag && (tag + rest)[|tag|..] == rest;
    assert rest[|between|..|between| + |tag|] == tag;
    assert OccursAt(rest, tag, |between|);
  }

  lemma NotAsHead(head: string, token: string, rest: string)
    requires !(token <= head)
    ensures token + rest != head
  {
    assert token <= token + rest;
  }

  lemma SplitHead(head: string, token: string, rest: string, after: string)
    requires token <= head && rest != head[|token|..] + after
    ensures token + rest != head + after
  {
    assert (token + rest)[|token|..] == rest;
    assert (head + after)[|token|..] == head[|token|..] + after;
  }

  lemma UnpairedDollarShows(pre: string, head: string) returns (body: string, post: string)
    requires pre != "" && pre[0] == '$' && AfterDollarQuoted(pre).None?
    ensures post == "" || post[0] != '\''
    ensures Sanitized(pre + Literal(body, post)) != head + Sanitized(post)
  {
    EmptyLiteral();
    NoDollarMore(pre);
    Behind(pre, 1, "''");
    if head == "" || head[0] != '$' {
      body, post := "", "";
      assert Sanitized(pre + "''") == ['$'] + Sanitized(pre[1..] + "''");
      assert head + Sanitized("") == head;
    } else {
      body, post := DollarCloses(pre);
      var rest := AfterDollarQuoted(pre + Literal(body, post)).value;
      assert Sanitized(pre + Literal(body, post)) == REDACTED + Sanitized(rest);
      StartsApart(REDACTED, head, Sanitized(rest), Sanitized(post));
    }
  }

  lemma UnclosedLiteralShows(pre: string, head: string) returns (body: string, post: string)
    requires StartsQuoted(pre) && Paired(BehindQuote(pre))
    ensures post == "" || post[0] != '\''
    ensures Sanitized(pre + Literal(body, post)) != head + Sanitized(post)
  {
    post := "";
    body := if head == REDACTED then "x" else "";
    UnclosedTakesQuote(pre, body);
    assert head + Sanitized(post) == head;
  }

  lemma OpenRunsOn(pre: string, x: string)
    requires StartsQuoted(pre) && Paired(BehindQuote(pre))
    ensures Sanitized(pre + x) == REDACTED + Sanitized(AfterQuoted(x))
  {
    Behind(pre, 1, x);
    Behind(pre, |pre| - |BehindQuote(pre)|, x);
    assert |pre| > 1 ==> (pre + x)[1] == pre[1];
    UnclosedRunsOn(BehindQuote(pre), x);
  }

  /** The opening quote of the literal behind closes the one that the text begins with. */
  lemma UnclosedTakesQuote(pre: string, body: string)
    requires StartsQuoted(pre) && Paired(BehindQuote(pre)) && (body == "" || body == "x")
    ensures Sanitized(pre + Literal(body, "")) == REDACTED <==> body == ""
  {
    OpenRunsOn(pre, Literal(body, ""));
    EmptyLiteral();
    if body == "x" {
      QuoteFreeIsEscaped("x");
      LiteralX();
    }
  }

  lemma LiteralX()
    requires Escaped("x") == "x"
    ensures Sanitized(AfterQuoted(Literal("x", ""))) != ""
  {
    var s := Literal("x", "");
    assert s[0] == '\'' && s[1] == 'x' && s[1..] != "";
  }

  /** Behind any other text some literal is not. */
  lemma {:induction false} UncoveredShows(pre: string, head: string) returns (body: string, post: string)
    requires !Covered(pre)
    ensures post == "" || post[0] != '\''
    ensures Sanitized(pre + Literal(body, post)) != head + Sanitized(post)
    decreases |pre|
  {
    if !StartsOpen(pre) {
      if Joins(pre) {
        JoinsIsCovered(pre);
      }
      var token := FirstLeft(pre);
      if token <= head {
        body, post := UncoveredShows(Later(pre), head[|token|..]);
        FirstIsLeft(pre, body, post);
        SplitHead(head, token, Sanitized(Later(pre) + Literal(body, post)), Sanitized(post));
      } else {
        body, post := "", "";
        FirstIsLeft(pre, body, post);
        NotAsHead(head, token, Sanitized(Later(pre) + Literal(body, post)));
        assert head + Sanitized(post) == head;
      }
    } else if pre[0] == '$' {
      body, post := UnpairedDollarShows(pre, head);
    } else {
      body, post := UnclosedLiteralShows(pre, head);
    }
  }

  lemma JoinsIsCovered(pre: string)
    requires pre != "" && !StartsOpen(pre) && Joins(pre)
    ensures Covered(pre)
  {
    assert pre[0] != '$' && Later(pre) == "";
  }

  /** Whatever its body and whatever follows, a literal behind a text is redacted as a whole iff the text is covered. */
  lemma LiteralsAreRedactedIff(pre: string)
    ensures (exists head :: RedactedAs(pre, head)) <==> Covered(pre)
  {
    if Covered(pre) {
      forall body, post | post == "" || post[0] != '\''
        ensures Sanitized(pre + Literal(body, post)) == Head(pre) + Sanitized(post)
      {
        CoveredIsRedacted(pre, body, post);
      }
      assert RedactedAs(pre, Head(pre));
    } else {
      forall head ensures !RedactedAs(pre, head) {
        var body, post := UncoveredShows(pre, head);
      }
    }
  }

  /** Two placeholders make a tag. When the second of them stands before a literal that holds the tag, the literal's
      beginning is taken for the end of a dollar-quoted string, and what it holds behind the tag shows. */
  lemma PlaceholdersShowSecret(name: string, before: string, start: string, secret: string)
    requires forall s :: s in {name, before, start, secret} ==> '$' !in s && '\'' !in s
    requires secret != "" && secret[|secret| - 1] !in "Ee"
    ensures var tag := "$" + name + "$";
            Sanitized((tag + before) + Literal(start + tag + secret, "")) == REDACTED + (secret + REDACTED)
  {
    var tag := "$" + name + "$";
    QuoteFreeIsEscaped(start + tag + secret);
    TagsAround(tag, before, start, secret);
    TagComesFirst(before + "'" + start, tag, secret + "'");
    DollarLiteralIsRedacted(name, tag, before + "'" + start, secret + "'");
    ShownBeforeQuote(secret);
  }

  lemma TagsAround(tag: string, before: string, start: string, secret: string)
    ensures (tag + before) + ("'" + (start + tag + secret + "'" + ""))
            == tag + ((before + "'" + start) + tag + (secret + "'"))
  {
  }

  lemma {:induction false} QuoteFreeIsEscaped(body: string)
    requires '\'' !in body
    ensures Escaped(body) == body
  {
    if body != "" {
      assert body[0] in body && forall c :: c in body[1..] ==> c in body;
      QuoteFreeIsEscaped(body[1..]);
    }
  }

  lemma TagComesFirst(body: string, tag: string, rest: string)
    requires '$' !in body && tag != "" && tag[0] == '$'
    ensures Index(body + tag + rest, tag) == Some(|body|)
  {
    var s := body + tag + rest;
    assert s[|body|..|body| + |tag|] == tag;
    assert OccursAt(s, tag, |body|);
    forall j: nat | j < |body| ensures !OccursAt(s, tag, j) {
      assert s[j] == body[j] && body[j] in body;
      assert j + |tag| <= |s| ==> s[j..j + |tag|][0] == s[j];
    }
  }

  /** An even number of quotes. */
  predicate EvenQuotes(s: string) {
    s == "" || (if s[0] == '\'' then !EvenQuotes(s[1..]) else EvenQuotes(s[1..]))
  }

  lemma {:induction false} QuoteFreeIsSkipped(body: string, post: string)
    requires '\'' !in body
    ensures AfterQuoted(body + post) == AfterQuoted(post)
  {
    if body == "" {
      assert body + post == post;
    } else {
      assert body[0] in body && forall c :: c in body[1..] ==> c in body;
      QuoteFreeIsSkipped(body[1..], post);
      assert (body + post)[1..] == body[1..] + post;
    }
  }

  /** A statement with a literal between a beginning and an end. */
  function Around(pre: string, body: string, post: string): string {
    pre + ("'" + body + "'" + post)
  }

  lemma AroundHead(pre: string, body: string, post: string)
    ensures pre != "" ==> Around(pre, body, post)[0] == pre[0] && Around(pre, body, post)[1..] == Around(pre[1..], body, post)
    ensures |pre| > 1 ==> Around(pre, body, post)[1] == pre[1] && Around(pre, body, post)[2..] == Around(pre[2..], body, post)
    ensures |pre| == 1 ==> Around(pre, body, post)[1] == '\'' && Around(pre, body, post)[2..] == body + ("'" + post)
    ensures pre == "" ==> Around(pre, body, post)[0] == '\'' && Around(pre, body, post)[1..] == body + ("'" + post)
  {
  }

  /** Inside a literal: it ends before the one that matters, at the same place whatever its body, or takes it all in. */
  lemma {:induction false} QuotedOver(pre: string, body: string, other: string, post: string) returns (rest: Option<string>)
    requires !EvenQuotes(pre) && '\'' !in body && '\'' !in other
    ensures rest.Some? ==> |rest.value| < |pre| && EvenQuotes(rest.value) && ('$' !in pre ==> '$' !in rest.value)
    ensures rest.Some? ==> AfterQuoted(Around(pre, body, post)) == Around(rest.value, body, post)
    ensures rest.Some? ==> AfterQuoted(Around(pre, other, post)) == Around(rest.value, other, post)
    ensures rest.None? ==> AfterQuoted(Around(pre, body, post)) == AfterQuoted(Around(pre, other, post))
  {
    AroundHead(pre, body, post);
    AroundHead(pre, other, post);
    assert forall c :: c in pre[1..] ==> c in pre;
    if pre[0] != '\'' {
      rest := QuotedOver(pre[1..], body, other, post);
    } else if |pre| == 1 {
      QuoteFreeIsSkipped(body, "'" + post);
      QuoteFreeIsSkipped(other, "'" + post);
      return None;
    } else if pre[1] == '\'' {
      assert pre[1..][1..] == pre[2..];
      assert forall c :: c in pre[2..] ==> c in pre;
      rest := QuotedOver(pre[2..], body, other, post);
    } else {
      return Some(pre[1..]);
    }
  }

  /**
   * After a beginning without dollars, the body of a literal can be replaced by any other body without quotes: the
   * output stays the same. A literal starts at every quote that comes after an even number of quotes.
   */
  lemma {:induction false} BodyDoesNotShow(pre: string, body: string, other: string, post: string)
    requires EvenQuotes(pre) && '\'' !in body && '\'' !in other && '$' !in pre
    ensures Sanitized(Around(pre, body, post)) == Sanitized(Around(pre, other, post))
    decreases |pre|
  {
    AroundHead(pre, body, post);
    AroundHead(pre, other, post);
    QuoteFreeIsSkipped(body, "'" + post);
    QuoteFreeIsSkipped(other, "'" + post);
    if pre != "" {
      assert pre[0] in pre && forall c :: c in pre[1..] ==> c in pre;
      if IsEscapeString(pre) {
        assert pre[1..][1..] == pre[2..] && forall c :: c in pre[2..] ==> c in pre;
        var rest := QuotedOver(pre[2..], body, other, post);
        if rest.Some? {
          BodyDoesNotShow(rest.value, body, other, post);
        }
      } else if pre[0] == '\'' {
        var rest := QuotedOver(pre[1..], body, other, post);
        if rest.Some? {
          BodyDoesNotShow(rest.value, body, other, post);
        }
      } else {
        BodyDoesNotShow(pre[1..], body, other, post);
      }
    }
  }

  /** A statement without quotes and dollars is left as it is. */
  lemma {:induction false} NothingToRedact(s: string)
    requires '$' !in s && '\'' !in s
    ensures Sanitized(s) == s
  {
    if s != "" {
      assert s[0] in s && forall c :: c in s[1..] ==> c in s;
      NothingToRedact(s[1..]);
      assert |s| > 1 ==> s[1] in s;
    }
  }
}
