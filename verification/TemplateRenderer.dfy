/**
  Prompt templates: one pass over the template replaces placeholders, and inserted values
  are never looked at again.

  The pass is specified by splitting the template into pieces, which the values cannot
  influence, and filling the pieces in.
 */
module TemplateRenderer {
  import opened Wrappers
  import opened Text

  /** A character copied through, or the place of the `k`-th placeholder of the table. */
  datatype Piece = Copied(c: char) | Slot(k: nat)

  predicate NoneEmpty(tokens: seq<string>) {
    forall k :: 0 <= k < |tokens| ==> tokens[k] != []
  }

  /** The first token of the table that `s` starts with, or the size of the table. */
  function TokenAt(s: string, tokens: seq<string>): (k: nat)
    ensures k <= |tokens|
    ensures k < |tokens| ==> tokens[k] <= s
  {
    if tokens == [] || tokens[0] <= s then 0 else 1 + TokenAt(s, tokens[1..])
  }

  /** Placeholders are looked for at opening braces only. */
  function Split(s: string, tokens: seq<string>): seq<Piece>
    requires NoneEmpty(tokens)
    decreases |s|
  {
    if s == [] then []
    else
      var k := TokenAt(s, tokens);
      if s[0] == '{' && k < |tokens| then [Slot(k)] + Split(s[|tokens[k]|..], tokens)
      else [Copied(s[0])] + Split(s[1..], tokens)
  }

  function Fill(pieces: seq<Piece>, values: seq<string>): string {
    if pieces == [] then []
    else
      (match pieces[0]
       case Copied(c) => [c]
       case Slot(k) => if k < |values| then values[k] else [])
      + Fill(pieces[1..], values)
  }

  datatype Entry = Entry(token: string, value: string)

  function Tokens(table: seq<Entry>): (tokens: seq<string>)
    ensures |tokens| == |table| && forall k :: 0 <= k < |table| ==> tokens[k] == table[k].token
  {
    if table == [] then [] else [table[0].token] + Tokens(table[1..])
  }

  function Values(table: seq<Entry>): (values: seq<string>)
    ensures |values| == |table| && forall k :: 0 <= k < |table| ==> values[k] == table[k].value
  {
    if table == [] then [] else [table[0].value] + Values(table[1..])
  }

  predicate Usable(table: seq<Entry>) {
    forall k :: 0 <= k < |table| ==> table[k].token != []
  }

  function Render(template: string, table: seq<Entry>): string
    requires Usable(table)
  {
    Fill(Split(template, Tokens(table)), Values(table))
  }

  lemma RendersOneCopied(s: string, table: seq<Entry>)
    requires Usable(table) && s != [] && s[0] != '{'
    ensures Render(s, table) == [s[0]] + Render(s[1..], table)
  {
    assert Split(s, Tokens(table))[1..] == Split(s[1..], Tokens(table));
  }

  lemma {:induction false} CopiesUpToBrace(s: string, n: nat, table: seq<Entry>)
    requires n <= |s| && Usable(table)
    requires forall k :: 0 <= k < n ==> s[k] != '{'
    ensures Render(s, table) == s[..n] + Render(s[n..], table)
    decreases n
  {
    if n > 0 {
      var rest := s[1..];
      assert forall k :: 0 <= k < n - 1 ==> rest[k] == s[k + 1];
      RendersOneCopied(s, table);
      CopiesUpToBrace(rest, n - 1, table);
      OneMoreCopied(s, n, Render(s[n..], table));
    } else {
      assert s[..0] == [] && s[0..] == s;
    }
  }

  lemma OneMoreCopied(s: string, n: nat, rendered: string)
    requires 0 < n <= |s|
    ensures s[1..][n - 1..] == s[n..] && [s[0]] + (s[1..][..n - 1] + rendered) == s[..n] + rendered
  {
    assert s[..n] == [s[0]] + s[1..][..n - 1];
    Regroup([s[0]], s[1..][..n - 1], rendered);
  }

  lemma RendersOneBrace(s: string, table: seq<Entry>)
    requires Usable(table) && s != [] && s[0] == '{'
    ensures var k := TokenAt(s, Tokens(table));
            Render(s, table) == if k < |table| then table[k].value + Render(s[|table[k].token|..], table)
                                else ['{'] + Render(s[1..], table)
  {
    var pieces, k := Split(s, Tokens(table)), TokenAt(s, Tokens(table));
    if k < |table| {
      assert pieces[1..] == Split(s[|table[k].token|..], Tokens(table));
    } else {
      assert pieces[1..] == Split(s[1..], Tokens(table));
    }
  }

  lemma {:induction false} TokenAtFirstMatch(s: string, tokens: seq<string>, k: nat)
    requires k <= |tokens| && forall j :: 0 <= j < k ==> !(tokens[j] <= s)
    requires k < |tokens| ==> tokens[k] <= s
    ensures TokenAt(s, tokens) == k
  {
    if k > 0 {
      TokenAtFirstMatch(s, tokens[1..], k - 1);
    }
  }

  /** At a brace the first entry of the table whose placeholder stands there is inserted, or else the brace. */
  lemma FirstMatchWins(s: string, table: seq<Entry>, k: nat)
    requires Usable(table) && "{" <= s && k <= |table|
    requires forall j :: 0 <= j < k ==> !(table[j].token <= s)
    ensures k < |table| && table[k].token <= s ==>
              Render(s, table) == table[k].value + Render(s[|table[k].token|..], table)
    ensures k == |table| ==> Render(s, table) == "{" + Render(s[1..], table)
  {
    RendersOneBrace(s, table);
    if k == |table| || table[k].token <= s {
      TokenAtFirstMatch(s, Tokens(table), k);
    }
  }

  /** An empty token would never advance the cursor, so the table must not hold one. */
  method RenderTokens(template: string, replacements: seq<Entry>) returns (rendered: string)
    requires Usable(replacements)
    ensures rendered == Render(template, replacements)
  {
    rendered := [];
    var cursor := 0;
    ghost var whole := Render(template, replacements);
    assert template[0..] == template;
    while cursor < |template|
      invariant cursor <= |template|
      invariant whole == rendered + Render(template[cursor..], replacements)
    {
      var emitted, next := RenderPastBrace(template, cursor, replacements);
      Regroup(rendered, emitted, Render(template[next..], replacements));
      rendered := rendered + emitted;
      cursor := next;
    }
    assert template[cursor..] == [];
  }

  lemma CopiesTo(template: string, cursor: nat, start: nat, table: seq<Entry>)
    requires Usable(table) && cursor <= start <= |template|
    requires forall n :: cursor <= n < start ==> template[n] != '{'
    ensures Render(template[cursor..], table) == template[cursor..start] + Render(template[start..], table)
  {
    var s := template[cursor..];
    CopiesUpToBrace(s, start - cursor, table);
    assert s[..start - cursor] == template[cursor..start];
    assert s[start - cursor..] == template[start..];
  }

  /** One turn of the loop: the text up to the next brace, and what stands for that brace. */
  method RenderPastBrace(template: string, cursor: nat, replacements: seq<Entry>)
    returns (emitted: string, next: nat)
    requires Usable(replacements) && cursor < |template|
    ensures cursor < next <= |template|
    ensures Render(template[cursor..], replacements) == emitted + Render(template[next..], replacements)
  {
    var start := FindBrace(template, cursor);
    CopiesTo(template, cursor, start, replacements);
    emitted, next := template[cursor..start], start;
    if start < |template| {
      var inserted, width := NextInsertion(template[start..], replacements);
      assert template[start..][width..] == template[start + width..];
      Regroup(emitted, inserted, Render(template[start + width..], replacements));
      emitted, next := emitted + inserted, start + width;
    }
  }

  /** The first opening brace at or after `cursor`, or the end. */
  method FindBrace(s: string, cursor: nat) returns (start: nat)
    requires cursor <= |s|
    ensures cursor <= start <= |s|
    ensures forall n :: cursor <= n < start ==> s[n] != '{'
    ensures start < |s| ==> s[start] == '{'
  {
    start := cursor;
    while start < |s| && s[start] != '{'
      invariant cursor <= start <= |s|
      invariant forall n :: cursor <= n < start ==> s[n] != '{'
    {
      start := start + 1;
    }
  }

  /** What replaces the text at an opening brace, and how much of the template it replaces. */
  method NextInsertion(remaining: string, replacements: seq<Entry>) returns (inserted: string, width: nat)
    requires Usable(replacements) && remaining != [] && remaining[0] == '{'
    ensures 0 < width <= |remaining|
    ensures Render(remaining, replacements) == inserted + Render(remaining[width..], replacements)
  {
    RendersOneBrace(remaining, replacements);
    var k := TokenAt(remaining, Tokens(replacements));
    if k < |replacements| {
      inserted, width := replacements[k].value, |replacements[k].token|;
    } else {
      inserted, width := ['{'], 1;
    }
  }

  // ---------- the split is faithful ----------

  /** Filling every slot with its own placeholder gives the template back. */
  lemma {:induction false} SplitLosesNothing(s: string, tokens: seq<string>)
    requires NoneEmpty(tokens)
    ensures Fill(Split(s, tokens), tokens) == s
    decreases |s|
  {
    if s != [] {
      var k, pieces := TokenAt(s, tokens), Split(s, tokens);
      if s[0] == '{' && k < |tokens| {
        SplitLosesNothing(s[|tokens[k]|..], tokens);
        assert pieces[1..] == Split(s[|tokens[k]|..], tokens);
        assert s == tokens[k] + s[|tokens[k]|..];
      } else {
        SplitLosesNothing(s[1..], tokens);
        assert pieces[1..] == Split(s[1..], tokens);
      }
    }
  }

  function SlotLengths(pieces: seq<Piece>, values: seq<string>): nat {
    if pieces == [] then 0
    else (if pieces[0].Slot? && pieces[0].k < |values| then |values[pieces[0].k]| else 0)
         + SlotLengths(pieces[1..], values)
  }

  function CopiedCount(pieces: seq<Piece>): nat {
    if pieces == [] then 0 else (if pieces[0].Copied? then 1 else 0) + CopiedCount(pieces[1..])
  }

  lemma {:induction false} FillLength(pieces: seq<Piece>, values: seq<string>)
    ensures |Fill(pieces, values)| == CopiedCount(pieces) + SlotLengths(pieces, values)
  {
    if pieces != [] {
      FillLength(pieces[1..], values);
    }
  }

  /** The output is as long as the template, less the placeholders replaced, plus the values. */
  lemma RenderedLength(template: string, table: seq<Entry>)
    requires Usable(table)
    ensures var pieces := Split(template, Tokens(table));
            |Render(template, table)|
            == |template| - SlotLengths(pieces, Tokens(table)) + SlotLengths(pieces, Values(table))
  {
    var pieces := Split(template, Tokens(table));
    SplitLosesNothing(template, Tokens(table));
    FillLength(pieces, Tokens(table));
    FillLength(pieces, Values(table));
  }

  // ---------- the order of the table ----------

  /** No placeholder that begins with a brace is the beginning of another; the rest are never found. */
  predicate PrefixFree(tokens: seq<string>) {
    forall j, k :: 0 <= j < |tokens| && 0 <= k < |tokens| && j != k && "{" <= tokens[j] ==>
                     !(tokens[j] <= tokens[k])
  }

  lemma PrefixesNest(a: string, b: string, s: string)
    requires a <= s && b <= s
    ensures a <= b || b <= a
  {
    if |a| <= |b| {
      assert a == s[..|a|] == b[..|a|];
    } else {
      assert b == s[..|b|] == a[..|b|];
    }
  }

  lemma {:induction false} TokenAtIsFirst(s: string, tokens: seq<string>, j: nat)
    requires j < |tokens| && tokens[j] <= s
    ensures TokenAt(s, tokens) <= j
  {
    if j > 0 && !(tokens[0] <= s) {
      TokenAtIsFirst(s, tokens[1..], j - 1);
    }
  }

  /** At most one placeholder of a prefix-free table stands at a brace. */
  lemma OnlyTokenAt(s: string, tokens: seq<string>, j: nat)
    requires NoneEmpty(tokens) && PrefixFree(tokens) && "{" <= s && j < |tokens| && tokens[j] <= s
    ensures TokenAt(s, tokens) == j
  {
    TokenAtIsFirst(s, tokens, j);
    var k := TokenAt(s, tokens);
    assert tokens[j][0] == s[0] && tokens[k][0] == s[0];
    PrefixesNest(tokens[j], tokens[k], s);
  }

  lemma EntryFound(s: string, e: Entry, table: seq<Entry>)
    requires NoneEmpty(Tokens(table)) && PrefixFree(Tokens(table)) && e in table && "{" <= s && e.token <= s
    ensures var k := TokenAt(s, Tokens(table));
            k < |table| && table[k] == e
  {
    var k: nat :| k < |table| && table[k] == e;
    OnlyTokenAt(s, Tokens(table), k);
  }

  lemma SameEntryAt(s: string, p: seq<Entry>, q: seq<Entry>)
    requires Usable(p) && Usable(q) && PrefixFree(Tokens(q)) && "{" <= s
    requires forall e :: e in p ==> e in q
    ensures var a, b := TokenAt(s, Tokens(p)), TokenAt(s, Tokens(q));
            a < |p| ==> b < |q| && p[a] == q[b]
  {
    var a := TokenAt(s, Tokens(p));
    if a < |p| {
      EntryFound(s, p[a], q);
    }
  }

  /** Tables with the same entries render alike, in whatever order they list them. */
  lemma {:induction false} TableOrderDoesNotMatter(s: string, p: seq<Entry>, q: seq<Entry>)
    requires Usable(p) && Usable(q) && PrefixFree(Tokens(p)) && PrefixFree(Tokens(q))
    requires forall e :: e in p <==> e in q
    ensures Render(s, p) == Render(s, q)
    decreases |s|
  {
    if s != [] {
      if s[0] == '{' {
        RendersOneBrace(s, p);
        RendersOneBrace(s, q);
        SameEntryAt(s, p, q);
        SameEntryAt(s, q, p);
        var k := TokenAt(s, Tokens(p));
        TableOrderDoesNotMatter(if k < |p| then s[|p[k].token|..] else s[1..], p, q);
      } else {
        CopiesUpToBrace(s, 1, p);
        CopiesUpToBrace(s, 1, q);
        TableOrderDoesNotMatter(s[1..], p, q);
      }
    }
  }

  /** Whatever the values and the template, any order of the entries gives the same text. */
  ghost predicate OrderNeverMatters(tokens: seq<string>) {
    forall s: string, p: seq<Entry>, q: seq<Entry> ::
      Usable(p) && Usable(q) && Tokens(p) == tokens && multiset(p) == multiset(q) ==> Render(s, p) == Render(s, q)
  }

  lemma TwiceInMultiset(q: seq<Entry>, j: nat, k: nat)
    requires j < k < |q| && q[j] == q[k]
    ensures multiset(q)[q[k]] >= 2
  {
    assert q == q[..k] + [q[k]] + q[k + 1..];
    assert q[j] in q[..k];
  }

  lemma TwiceInSequence(p: seq<Entry>, e: Entry) returns (j: nat, k: nat)
    requires multiset(p)[e] >= 2
    ensures j < |p| && k < |p| && j != k && p[j] == p[k] == e
  {
    assert e in p;
    j :| j < |p| && p[j] == e;
    assert p == p[..j] + [e] + p[j + 1..];
    if e in p[..j] {
      k :| k < j && p[k] == e;
    } else {
      assert e in p[j + 1..];
      var i: nat :| i < |p| - j - 1 && p[j + 1..][i] == e;
      k := j + 1 + i;
    }
  }

  lemma TwiceIsNotPrefixFree(p: seq<Entry>, e: Entry)
    requires multiset(p)[e] >= 2 && "{" <= e.token
    ensures !PrefixFree(Tokens(p))
  {
    var j, k := TwiceInSequence(p, e);
    assert Tokens(p)[j] <= Tokens(p)[k];
  }

  lemma NotPrefixFreeInAnyOrder(p: seq<Entry>, q: seq<Entry>, j: nat, k: nat)
    requires multiset(p) == multiset(q)
    requires j < |q| && k < |q| && j != k && "{" <= q[j].token <= q[k].token
    ensures !PrefixFree(Tokens(p))
  {
    if q[j] == q[k] {
      TwiceInMultiset(q, if j < k then j else k, if j < k then k else j);
      TwiceIsNotPrefixFree(p, q[j]);
    } else {
      assert q[j] in multiset(p) && q[k] in multiset(p);
      var a: nat :| a < |p| && p[a] == q[j];
      var b: nat :| b < |p| && p[b] == q[k];
      assert Tokens(p)[a] <= Tokens(p)[b];
    }
  }

  lemma PrefixFreeInAnyOrder(p: seq<Entry>, q: seq<Entry>)
    requires multiset(p) == multiset(q)
    ensures PrefixFree(Tokens(p)) ==> PrefixFree(Tokens(q))
  {
    if !PrefixFree(Tokens(q)) {
      var j: nat, k: nat :| j < |q| && k < |q| && j != k && "{" <= Tokens(q)[j] && Tokens(q)[j] <= Tokens(q)[k];
      NotPrefixFreeInAnyOrder(p, q, j, k);
    }
  }

  function Front(p: seq<Entry>, j: nat): seq<Entry>
    requires j < |p|
  {
    [p[j]] + (p[..j] + p[j + 1..])
  }

  lemma FrontKeepsEntries(p: seq<Entry>, j: nat)
    requires j < |p|
    ensures multiset(Front(p, j)) == multiset(p)
    ensures forall e :: e in Front(p, j) ==> e in p
  {
    assert p == p[..j] + [p[j]] + p[j + 1..];
  }

  /** Each value is no longer than its placeholder. */
  predicate Shrinking(table: seq<Entry>) {
    forall k :: 0 <= k < |table| ==> |table[k].value| <= |table[k].token|
  }

  lemma {:induction false} SlotsShrink(pieces: seq<Piece>, table: seq<Entry>)
    requires Shrinking(table)
    ensures SlotLengths(pieces, Values(table)) <= SlotLengths(pieces, Tokens(table))
  {
    if pieces != [] {
      SlotsShrink(pieces[1..], table);
    }
  }

  lemma RenderingShrinks(s: string, table: seq<Entry>)
    requires Usable(table) && Shrinking(table)
    ensures |Render(s, table)| <= |s|
  {
    RenderedLength(s, table);
    SlotsShrink(Split(s, Tokens(table)), table);
  }

  /** The first entry of a table is the one that counts where its placeholder stands. */
  lemma FirstEntryWins(s: string, table: seq<Entry>)
    requires Usable(table) && table != [] && "{" <= s && table[0].token <= s
    ensures Render(s, table) == table[0].value + Render(s[|table[0].token|..], table)
  {
    RendersOneBrace(s, table);
  }

  /** With nothing for the beginning, what is left of the longer placeholder cannot grow to its length. */
  lemma ShorterFirst(p: seq<Entry>, j: nat, s: string)
    requires Usable(p) && Shrinking(p) && j < |p| && "{" <= p[j].token <= s && p[j].value == []
    ensures Usable(Front(p, j)) && |Render(s, Front(p, j))| < |s|
  {
    FrontKeepsEntries(p, j);
    FirstEntryWins(s, Front(p, j));
    RenderingShrinks(s[|p[j].token|..], Front(p, j));
  }

  lemma ItselfFirst(p: seq<Entry>, k: nat)
    requires Usable(p) && k < |p| && "{" <= p[k].token && p[k].value == p[k].token
    ensures Usable(Front(p, k)) && Render(p[k].token, Front(p, k)) == p[k].token
  {
    var s := p[k].token;
    FrontKeepsEntries(p, k);
    FirstEntryWins(s, Front(p, k));
    assert s[|s|..] == [];
  }

  /** Every placeholder stands for nothing, but the `k`-th for itself. */
  function OnlyItself(tokens: seq<string>, k: nat): (table: seq<Entry>) {
    seq(|tokens|, i requires 0 <= i < |tokens| => Entry(tokens[i], if i == k then tokens[k] else []))
  }

  lemma OnlyItselfIsUsable(tokens: seq<string>, k: nat)
    requires NoneEmpty(tokens)
    ensures var p := OnlyItself(tokens, k);
            Usable(p) && Shrinking(p) && Tokens(p) == tokens && |p| == |tokens|
  {
  }

  lemma OrderMattersFor(tokens: seq<string>, p: seq<Entry>, q: seq<Entry>, s: string)
    requires Usable(p) && Usable(q) && Tokens(p) == tokens && multiset(p) == multiset(q)
    requires Render(s, p) != Render(s, q)
    ensures !OrderNeverMatters(tokens)
  {
  }

  lemma PrefixMakesOrderMatter(tokens: seq<string>, j: nat, k: nat)
    requires NoneEmpty(tokens) && j < |tokens| && k < |tokens| && j != k
    requires "{" <= tokens[j] <= tokens[k]
    ensures !OrderNeverMatters(tokens)
  {
    var p, s := OnlyItself(tokens, k), tokens[k];
    OnlyItselfIsUsable(tokens, k);
    FrontKeepsEntries(p, j);
    FrontKeepsEntries(p, k);
    ShorterFirst(p, j, s);
    ItselfFirst(p, k);
    OrderMattersFor(tokens, p, if Render(s, p) == s then Front(p, j) else Front(p, k), s);
  }

  /** The order of a table is immaterial, for all values and templates, just when it is prefix free. */
  lemma OrderNeverMattersIffPrefixFree(tokens: seq<string>)
    requires NoneEmpty(tokens)
    ensures OrderNeverMatters(tokens) <==> PrefixFree(tokens)
  {
    if PrefixFree(tokens) {
      forall s: string, p: seq<Entry>, q: seq<Entry> |
        Usable(p) && Usable(q) && Tokens(p) == tokens && multiset(p) == multiset(q)
        ensures Render(s, p) == Render(s, q)
      {
        PrefixFreeInAnyOrder(p, q);
        assert forall e :: e in p <==> e in multiset(p);
        TableOrderDoesNotMatter(s, p, q);
      }
    } else {
      var j, k :| 0 <= j < |tokens| && 0 <= k < |tokens| && j != k && "{" <= tokens[j] && tokens[j] <= tokens[k];
      PrefixMakesOrderMatter(tokens, j, k);
    }
  }

  // ---------- which templates are accepted ----------

  /** `matches(pattern).count()`: occurrences from the left that do not overlap. */
  function Count(s: string, pattern: string): nat
    requires pattern != []
    decreases |s|
  {
    if s == [] then 0
    else if pattern <= s then 1 + Count(s[|pattern|..], pattern)
    else Count(s[1..], pattern)
  }

  const MAX_TEMPLATE_BYTES := 16 * 1024
  const REQUEST := "{REQUEST}"
  const RESPONSE := "{RESPONSE}"

  datatype TemplateError = Empty | TooLong | NotExactlyOnce(placeholder: string)

  function Validate(content: string): Option<TemplateError> {
    if Trim(content) == [] then Some(Empty)
    else if ByteLength(content) > MAX_TEMPLATE_BYTES then Some(TooLong)
    else if Count(content, REQUEST) != 1 then Some(NotExactlyOnce(REQUEST))
    else if Count(content, RESPONSE) != 1 then Some(NotExactlyOnce(RESPONSE))
    else None
  }

  method ValidateTemplate(content: string) returns (error: Option<TemplateError>)
    ensures error == Validate(content)
  {
    if Trim(content) == [] { return Some(Empty); }
    if ByteLength(content) > MAX_TEMPLATE_BYTES { return Some(TooLong); }
    var placeholders := [REQUEST, RESPONSE];
    for n := 0 to |placeholders|
      invariant n >= 1 ==> Count(content, REQUEST) == 1
      invariant n >= 2 ==> Count(content, RESPONSE) == 1
    {
      assert n == 0 || n == 1;
      if Count(content, placeholders[n]) != 1 { return Some(NotExactlyOnce(placeholders[n])); }
    }
    error := None;
  }

  const ANALYSIS_TOKENS := ["{METHOD}", "{URL}", "{HOST}", "{STATUS}", REQUEST, RESPONSE, "{RULE_TAGS}"]

  /** A placeholder in braces, with no other brace in it. */
  predicate Braced(token: string) {
    |token| > 1 && token[0] == '{' && token[|token| - 1] == '}'
    && forall n :: 0 < n < |token| - 1 ==> token[n] != '{' && token[n] != '}'
  }

  lemma BracedPrefixIsWhole(a: string, b: string)
    requires Braced(a) && Braced(b)
    ensures a <= b ==> a == b
  {
    if a <= b {
      assert b[|a| - 1] == '}';
    }
  }

  /** Placeholders in braces, like those of the program, never begin one another. */
  lemma BracedTableIsPrefixFree(tokens: seq<string>)
    requires forall k :: 0 <= k < |tokens| ==> Braced(tokens[k])
    requires forall j, k :: 0 <= j < k < |tokens| ==> tokens[j] != tokens[k]
    ensures PrefixFree(tokens)
  {
    forall j, k | 0 <= j < |tokens| && 0 <= k < |tokens| && j != k
      ensures !(tokens[j] <= tokens[k])
    {
      BracedPrefixIsWhole(tokens[j], tokens[k]);
    }
  }

  function SlotCount(pieces: seq<Piece>, k: nat): nat {
    if pieces == [] then 0 else (if pieces[0] == Slot(k) then 1 else 0) + SlotCount(pieces[1..], k)
  }

  lemma {:induction false} NothingBetweenBraces(s: string, n: nat, pattern: string)
    requires Braced(pattern) && n <= |s|
    requires forall k :: 0 <= k < n ==> s[k] != '{'
    ensures Count(s, pattern) == Count(s[n..], pattern)
    decreases n
  {
    if n > 0 {
      assert !(pattern <= s) by {
        assert pattern[0] != s[0];
      }
      NothingBetweenBraces(s[1..], n - 1, pattern);
      assert s[1..][n - 1..] == s[n..];
    } else {
      assert s[0..] == s;
    }
  }

  /** Stepping over one placeholder steps over its own occurrence and no other. */
  lemma StepOverToken(s: string, token: string, pattern: string)
    requires Braced(token) && Braced(pattern) && token <= s
    ensures Count(s, pattern) == (if pattern == token then 1 else 0) + Count(s[|token|..], pattern)
  {
    if pattern != token {
      if pattern <= s {
        PrefixesNest(pattern, token, s);
        if pattern <= token {
          BracedPrefixIsWhole(pattern, token);
        } else {
          BracedPrefixIsWhole(token, pattern);
        }
      }
      assert forall n :: 0 <= n < |token| - 1 ==> s[1..][n] == token[n + 1];
      NothingBetweenBraces(s[1..], |token| - 1, pattern);
      assert s[1..][|token| - 1..] == s[|token|..];
    }
  }

  /** The split finds every occurrence of a placeholder, and nothing else. */
  lemma {:induction false} SlotsAreOccurrences(s: string, tokens: seq<string>, k: nat)
    requires k < |tokens| && NoneEmpty(tokens)
    requires forall j :: 0 <= j < |tokens| ==> Braced(tokens[j]) && (j != k ==> tokens[j] != tokens[k])
    ensures SlotCount(Split(s, tokens), k) == Count(s, tokens[k])
    decreases |s|
  {
    if s != [] {
      var found, pieces := TokenAt(s, tokens), Split(s, tokens);
      if s[0] == '{' && found < |tokens| {
        StepOverToken(s, tokens[found], tokens[k]);
        SlotsAreOccurrences(s[|tokens[found]|..], tokens, k);
        assert pieces[1..] == Split(s[|tokens[found]|..], tokens);
      } else {
        PlaceholdersAreFound(s, tokens, k);
        SlotsAreOccurrences(s[1..], tokens, k);
        assert pieces[1..] == Split(s[1..], tokens);
      }
    }
  }

  lemma PlaceholdersAreFound(s: string, tokens: seq<string>, k: nat)
    requires k < |tokens| && tokens[k] != [] && tokens[k][0] == '{' && s != []
    ensures tokens[k] <= s ==> s[0] == '{' && TokenAt(s, tokens) < |tokens|
  {
    if tokens[k] <= s {
      TokenAtIsFirst(s, tokens, k);
    }
  }

  /** An accepted template has exactly one place for the request and one for the response. */
  lemma AcceptedTemplatesHaveOneSlotEach(content: string)
    ensures NoneEmpty(ANALYSIS_TOKENS)
    ensures var pieces := Split(content, ANALYSIS_TOKENS);
            Validate(content).None? <==>
              && Trim(content) != [] && ByteLength(content) <= 16384
              && SlotCount(pieces, 4) == 1 && SlotCount(pieces, 5) == 1
  {
    assert ANALYSIS_TOKENS[4] == REQUEST && ANALYSIS_TOKENS[5] == RESPONSE;
    SlotsAreOccurrences(content, ANALYSIS_TOKENS, 4);
    SlotsAreOccurrences(content, ANALYSIS_TOKENS, 5);
  }
}
