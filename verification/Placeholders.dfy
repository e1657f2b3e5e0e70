/** Substitution of `{name}` placeholders into hook arguments. */
module Placeholders {
  import opened Types
  import opened TextEncodings

  datatype Binding = Binding(name: string, value: string)
  {
    function Pattern(): (p: string)
      ensures |p| == |name| + 2 && p[0] == '{' && p[|name| + 1] == '}'
      ensures p[1..|name| + 1] == name
    {
      ['{'] + name + ['}']
    }
  }

  predicate BraceFree(s: string) {
    forall i :: 0 <= i < |s| ==> s[i] != '{' && s[i] != '}'
  }

  predicate OpenFree(s: string) {
    forall i :: 0 <= i < |s| ==> s[i] != '{'
  }

  /** Whether an occurrence of `p` can begin inside `v`: from some brace on, `v` is the start of
      `p`, or `p` the start of what is left of `v`. */
  predicate Opens(v: string, p: string) {
    v != "" && ((v[0] == '{' && (v <= p || p <= v)) || Opens(v[1..], p))
  }

  /** Every opening brace is closed before the next one opens. */
  predicate Unnested(s: string) {
    forall i, j :: 0 <= i < j < |s| && s[i] == '{' && s[j] == '{' ==> exists k :: i < k < j && s[k] == '}'
  }

  /** `str::replace`: every occurrence of the pattern, left to right, without overlap. */
  function Replace(s: string, b: Binding): string
    decreases |s|
  {
    if s == "" then ""
    else if b.Pattern() <= s then b.value + Replace(s[|b.Pattern()|..], b)
    else [s[0]] + Replace(s[1..], b)
  }

  /** One replacement after the other, as the code does it. */
  function Sequential(s: string, bs: seq<Binding>): string {
    if bs == [] then s else Replace(Sequential(s, bs[..|bs| - 1]), bs[|bs| - 1])
  }

  /** The first binding whose pattern stands at the start of `s`. */
  function Match(s: string, bs: seq<Binding>): Option<Binding> {
    if bs == [] then None
    else
      var earlier := Match(s, bs[..|bs| - 1]);
      if earlier.Some? then earlier
      else if bs[|bs| - 1].Pattern() <= s then Some(bs[|bs| - 1])
      else None
  }

  lemma {:induction false} MatchIsPrefix(s: string, bs: seq<Binding>)
    ensures Match(s, bs).Some? ==> Match(s, bs).value in bs && Match(s, bs).value.Pattern() <= s
  {
    if bs != [] {
      MatchIsPrefix(s, bs[..|bs| - 1]);
    }
  }

  /** All placeholders replaced at once in a single pass: substituted text is not looked at again. */
  function Simultaneous(s: string, bs: seq<Binding>): string
    decreases |s|
  {
    MatchIsPrefix(s, bs);
    if s == "" then ""
    else if Match(s, bs).Some? then Match(s, bs).value.value + Simultaneous(s[|Match(s, bs).value.Pattern()|..], bs)
    else [s[0]] + Simultaneous(s[1..], bs)
  }

  // ----- Text that opens no placeholder passes through -----

  lemma HeadTail(u: string, y: string)
    requires u != ""
    ensures u + y != "" && (u + y)[0] == u[0] && (u + y)[1..] == u[1..] + y
    ensures [u[0]] + (u[1..] + y) == u + y
  {
    assert u == [u[0]] + u[1..];
  }

  lemma ReplaceSkips(s: string, b: Binding)
    requires s != "" && !(b.Pattern() <= s)
    ensures Replace(s, b) == [s[0]] + Replace(s[1..], b)
  {
  }

  lemma {:induction false} ReplacePasses(u: string, x: string, b: Binding)
    requires !Opens(u, b.Pattern())
    ensures Replace(u + x, b) == u + Replace(x, b)
  {
    if u == "" {
      assert u + x == x && u + Replace(x, b) == Replace(x, b);
    } else {
      ReplacePasses(u[1..], x, b);
      if b.Pattern() <= u + x {
        OpensAtStart(u, x, b);
      }
      HeadTail(u, x);
      HeadTail(u, Replace(x, b));
      ReplaceSkips(u + x, b);
    }
  }

  lemma OpensAtStart(u: string, x: string, b: Binding)
    requires u != "" && b.Pattern() <= u + x
    ensures Opens(u, b.Pattern())
  {
    var p, w := b.Pattern(), u + x;
    assert w[..|p|] == p && u[0] == w[0];
    assert if |p| <= |u| then p == w[..|p|] == u[..|p|] else u == w[..|u|] == p[..|u|];
  }

  lemma {:induction false} OpenFreeOpensNothing(u: string, p: string)
    requires OpenFree(u)
    ensures !Opens(u, p)
  {
    if u != "" {
      OpenFreeOpensNothing(u[1..], p);
    }
  }

  lemma NoMatch(s: string, bs: seq<Binding>)
    requires s != "" && s[0] != '{'
    ensures Match(s, bs).None?
  {
    MatchIsPrefix(s, bs);
  }

  lemma SimultaneousSkips(s: string, bs: seq<Binding>)
    requires s != "" && Match(s, bs).None?
    ensures Simultaneous(s, bs) == [s[0]] + Simultaneous(s[1..], bs)
  {
  }

  lemma {:induction false} SimultaneousPasses(u: string, y: string, bs: seq<Binding>)
    requires OpenFree(u)
    ensures Simultaneous(u + y, bs) == u + Simultaneous(y, bs)
  {
    if u == "" {
      assert u + y == y && u + Simultaneous(y, bs) == Simultaneous(y, bs);
    } else {
      SimultaneousPasses(u[1..], y, bs);
      NoMatch(u + y, bs);
      HeadTail(u, y);
      HeadTail(u, Simultaneous(y, bs));
      SimultaneousSkips(u + y, bs);
    }
  }

  // ----- One more placeholder -----

  /** How many characters come before the first brace. */
  function Span(s: string): (n: nat)
    ensures n <= |s| && BraceFree(s[..n])
    ensures n < |s| ==> s[n] == '{' || s[n] == '}'
  {
    if s == "" || s[0] == '{' || s[0] == '}' then 0 else 1 + Span(s[1..])
  }

  lemma UnnestedTail(s: string, n: nat)
    requires Unnested(s) && n <= |s|
    ensures Unnested(s[n..])
  {
    var t := s[n..];
    forall i, j | 0 <= i < j < |t| && t[i] == '{' && t[j] == '{' ensures exists k :: i < k < j && t[k] == '}' {
      var k :| i + n < k < j + n && s[k] == '}';
      assert t[k - n] == '}';
    }
  }

  /** After substitution the text up to the first brace is what it was, and so is that brace. */
  lemma SpanStays(s: string, bs: seq<Binding>)
    requires Span(s) < |s| ==> s[Span(s)] == '}'
    ensures var n, after := Span(s), Simultaneous(s, bs);
            && n <= |after| && after[..n] == s[..n]
            && (n < |s| ==> n < |after| && after[n] == '}')
            && (n == |s| ==> after == s)
  {
    var n := Span(s);
    assert s == s[..n] + s[n..];
    SimultaneousPasses(s[..n], s[n..], bs);
    if n < |s| {
      NoMatch(s[n..], bs);
    }
  }

  /** In unnested text, the first brace after an opening one is a closing one. */
  lemma ClosesNext(s: string)
    requires s != "" && s[0] == '{' && Unnested(s)
    ensures var t := s[1..]; Span(t) < |t| ==> t[Span(t)] == '}'
  {
    var t, n := s[1..], Span(s[1..]);
    forall k | 0 < k < 1 + n ensures s[k] != '}' {
      assert s[k] == t[..n][k - 1];
    }
    assert n < |t| ==> s[1 + n] == t[n];
  }

  /** Two readings of one text agree on where its first brace is. */
  lemma FirstBraceAt(w: string, n: nat, m: nat)
    requires n <= |w| && m < |w| && BraceFree(w[..n]) && BraceFree(w[..m])
    requires w[m] == '}' && (n < |w| ==> w[n] == '}')
    ensures n == m
  {
    assert forall i :: 0 <= i < n ==> w[i] == w[..n][i];
    assert forall i :: 0 <= i < m ==> w[i] == w[..m][i];
  }

  /** Substituting earlier placeholders does not bring a new occurrence of `b` into being. */
  lemma NoNewOccurrence(s: string, bs: seq<Binding>, b: Binding)
    requires s != "" && s[0] == '{' && Unnested(s) && BraceFree(b.name)
    requires b.Pattern() <= ['{'] + Simultaneous(s[1..], bs)
    ensures b.Pattern() <= s
  {
    var t, n, m := s[1..], Span(s[1..]), |b.name|;
    ClosesNext(s);
    SpanStays(t, bs);
    var after := Simultaneous(t, bs);
    PatternTail(b, after);
    FirstBraceAt(after, n, m);
    assert n < |t| && t[..m] == b.name && t[m] == '}';
    assert s[..m + 2] == ['{'] + t[..m] + [t[m]];
  }

  lemma PatternTail(b: Binding, after: string)
    requires b.Pattern() <= ['{'] + after
    ensures |b.name| < |after| && after[..|b.name|] == b.name && after[|b.name|] == '}'
  {
    var p, w, m := b.Pattern(), ['{'] + after, |b.name|;
    assert w[..m + 2] == p;
    assert after == w[1..];
    assert after[..m] == w[1..m + 1] == p[1..m + 1];
  }

  lemma PatternPasses(s: string, bs: seq<Binding>, b: Binding)
    requires BraceFree(b.name) && Match(s, bs).None? && b.Pattern() <= s
    ensures Simultaneous(s, bs) == b.Pattern() + Simultaneous(s[|b.Pattern()|..], bs)
  {
    var p := b.Pattern();
    var tail, rest := p[1..], s[|p|..];
    assert s == p + rest;
    HeadTail(p, rest);
    HeadTail(p, Simultaneous(rest, bs));
    assert forall i :: 0 <= i < |tail| ==> tail[i] == p[i + 1];
    SimultaneousSkips(s, bs);
    SimultaneousPasses(tail, rest, bs);
  }

  lemma PatternReplaced(b: Binding, after: string)
    ensures Replace(b.Pattern() + after, b) == b.value + Replace(after, b)
  {
    assert (b.Pattern() + after)[|b.Pattern()|..] == after;
  }

  lemma {:induction false} ReplaceCompletes(s: string, bs: seq<Binding>, b: Binding)
    requires Unnested(s) && BraceFree(b.name)
    requires forall x :: x in bs ==> !Opens(x.value, b.Pattern())
    ensures Replace(Simultaneous(s, bs), b) == Simultaneous(s, bs + [b])
    decreases |s|
  {
    if s != "" {
      var all := bs + [b];
      assert all[..|bs|] == bs;
      MatchIsPrefix(s, bs);
      if Match(s, bs).Some? {
        var m := Match(s, bs).value;
        UnnestedTail(s, |m.Pattern()|);
        ReplaceCompletes(s[|m.Pattern()|..], bs, b);
        ReplacePasses(m.value, Simultaneous(s[|m.Pattern()|..], bs), b);
      } else if b.Pattern() <= s {
        UnnestedTail(s, |b.Pattern()|);
        ReplaceCompletes(s[|b.Pattern()|..], bs, b);
        PatternPasses(s, bs, b);
        PatternReplaced(b, Simultaneous(s[|b.Pattern()|..], bs));
      } else {
        UnnestedTail(s, 1);
        ReplaceCompletes(s[1..], bs, b);
        var rest := Simultaneous(s[1..], bs);
        if s[0] == '{' && b.Pattern() <= [s[0]] + rest {
          NoNewOccurrence(s, bs, b);
        }
        assert ([s[0]] + rest)[1..] == rest;
      }
    }
  }

  /** No value can begin an occurrence of a placeholder that is replaced after its own. */
  ghost predicate OpensNoLater(bs: seq<Binding>) {
    forall i, j {:trigger Opens(bs[i].value, bs[j].Pattern())} :: 0 <= i < j < |bs| ==>
      !Opens(bs[i].value, bs[j].Pattern())
  }

  lemma OpensNoLaterInit(bs: seq<Binding>)
    requires bs != [] && OpensNoLater(bs)
    ensures var init, last := bs[..|bs| - 1], bs[|bs| - 1];
            OpensNoLater(init) && forall b :: b in init ==> !Opens(b.value, last.Pattern())
  {
    var init, last := bs[..|bs| - 1], bs[|bs| - 1];
    forall i | 0 <= i < |init| ensures !Opens(init[i].value, last.Pattern()) {
      assert init[i] == bs[i];
    }
    forall i, j | 0 <= i < j < |init| ensures !Opens(init[i].value, init[j].Pattern()) {
      assert init[i] == bs[i] && init[j] == bs[j];
    }
  }

  /** Replacing placeholders one after the other is the same as replacing all at once, for
      every unnested template, when no value opens a later placeholder. */
  lemma {:induction false} SequentialIsSimultaneous(s: string, bs: seq<Binding>)
    requires Unnested(s) && OpensNoLater(bs) && forall b :: b in bs ==> BraceFree(b.name)
    ensures Sequential(s, bs) == Simultaneous(s, bs)
  {
    if bs == [] {
      EmptySubstitution(s);
    } else {
      var init, last := bs[..|bs| - 1], bs[|bs| - 1];
      assert last in bs && forall b :: b in init ==> b in bs;
      OpensNoLaterInit(bs);
      SequentialIsSimultaneous(s, init);
      ReplaceCompletes(s, init, last);
      assert bs == init + [last];
    }
  }

  lemma {:induction false} EmptySubstitution(s: string)
    ensures Simultaneous(s, []) == s
  {
    if s != "" {
      EmptySubstitution(s[1..]);
    }
  }

  // ----- When one pass is not enough -----

  /** How many braces `s` opens. */
  function Braces(s: string): nat {
    if s == "" then 0 else (if s[0] == '{' then 1 else 0) + Braces(s[1..])
  }

  lemma {:induction false} BracesAdd(a: string, b: string)
    ensures Braces(a + b) == Braces(a) + Braces(b)
  {
    if a == "" {
      assert a + b == b;
    } else {
      HeadTail(a, b);
      BracesAdd(a[1..], b);
    }
  }

  lemma {:induction false} OpenFreeBraces(s: string)
    requires OpenFree(s)
    ensures Braces(s) == 0
  {
    if s != "" {
      OpenFreeBraces(s[1..]);
    }
  }

  ghost predicate Occurs(s: string, b: Binding) {
    exists i :: 0 <= i <= |s| && b.Pattern() <= s[i..]
  }

  lemma OccursCons(s: string, b: Binding)
    requires s != "" && Occurs(s[1..], b)
    ensures Occurs(s, b)
  {
    var i :| 0 <= i <= |s[1..]| && b.Pattern() <= s[1..][i..];
    assert s[1..][i..] == s[i + 1..];
  }

  lemma OccursLater(s: string, b: Binding)
    requires s != "" && !(b.Pattern() <= s)
    ensures Occurs(s, b) <==> Occurs(s[1..], b)
  {
    if i :| 0 <= i <= |s| && b.Pattern() <= s[i..] {
      assert i > 0;
      assert s[i..] == s[1..][i - 1..];
    }
    if Occurs(s[1..], b) {
      OccursCons(s, b);
    }
  }

  /** A replacement by a value that opens no brace takes at least one opening brace away, or
      leaves the text as it was because there was nothing to replace. */
  lemma {:induction false} ReplaceCounts(s: string, b: Binding)
    requires OpenFree(b.value)
    ensures Braces(Replace(s, b)) <= Braces(s)
    ensures Occurs(s, b) ==> Braces(Replace(s, b)) < Braces(s)
    ensures !Occurs(s, b) ==> Replace(s, b) == s
    decreases |s|
  {
    var p := b.Pattern();
    if s == "" {
    } else if p <= s {
      var rest := s[|p|..];
      assert s == p + rest;
      ReplaceCounts(rest, b);
      BracesAdd(p, rest);
      BracesAdd(b.value, Replace(rest, b));
      OpenFreeBraces(b.value);
      assert Braces(p) >= 1;
      assert p <= s[0..];
    } else {
      ReplaceSkips(s, b);
      ReplaceCounts(s[1..], b);
      OccursLater(s, b);
      BracesAdd([s[0]], Replace(s[1..], b));
      BracesAdd([s[0]], s[1..]);
      assert s == [s[0]] + s[1..];
    }
  }

  /** So a row of such replacements leaves a text alone only if none of them occurs in it. */
  lemma {:induction false} SequentialCounts(s: string, bs: seq<Binding>)
    requires forall b :: b in bs ==> OpenFree(b.value)
    ensures Braces(Sequential(s, bs)) < Braces(s) || Sequential(s, bs) == s
    ensures (exists b :: b in bs && Occurs(s, b)) ==> Sequential(s, bs) != s
  {
    if bs != [] {
      var init, last := bs[..|bs| - 1], bs[|bs| - 1];
      assert bs == init + [last] && forall b :: b in init ==> b in bs;
      SequentialCounts(s, init);
      ReplaceCounts(Sequential(s, init), last);
    }
  }

  lemma {:induction false} SequentialJoin(s: string, a: seq<Binding>, b: seq<Binding>)
    ensures Sequential(s, a + b) == Sequential(Sequential(s, a), b)
  {
    if b == [] {
      assert a + b == a;
    } else {
      var init := b[..|b| - 1];
      SequentialJoin(s, a, init);
      assert (a + b)[..|a + b| - 1] == a + init;
    }
  }

  predicate DistinctNames(bs: seq<Binding>) {
    && (forall b :: b in bs ==> BraceFree(b.name))
    && (forall i, j :: 0 <= i < j < |bs| ==> bs[i].name != bs[j].name)
  }

  /** Only one placeholder can stand at the start of a text. */
  lemma OnePattern(b: Binding, rest: string, x: Binding)
    requires BraceFree(b.name) && BraceFree(x.name) && x.Pattern() <= b.Pattern() + rest
    ensures x.name == b.name
  {
    var w := b.Pattern() + rest;
    var after := w[1..];
    assert w == ['{'] + after && b.Pattern() <= w;
    PatternTail(b, after);
    PatternTail(x, after);
    FirstBraceAt(after, |b.name|, |x.name|);
  }

  lemma {:induction false} MatchOf(b: Binding, rest: string, bs: seq<Binding>)
    requires DistinctNames(bs) && b in bs
    ensures Match(b.Pattern() + rest, bs) == Some(b)
  {
    var init, last, s := bs[..|bs| - 1], bs[|bs| - 1], b.Pattern() + rest;
    MatchIsPrefix(s, init);
    assert b.Pattern() <= s;
    if Match(s, init).Some? {
      var m := Match(s, init).value;
      OnePattern(b, rest, m);
      assert m in bs;
    }
    if b in init {
      MatchOf(b, rest, init);
    }
  }

  /** Placeholders of other names do not see the template `{name}` followed by `rest`. */
  lemma {:induction false} OthersPass(b: Binding, rest: string, others: seq<Binding>)
    requires OpenFree(rest) && BraceFree(b.name)
    requires forall x :: x in others ==> BraceFree(x.name) && x.name != b.name
    ensures Sequential(b.Pattern() + rest, others) == b.Pattern() + rest
  {
    if others != [] {
      var init, last, s := others[..|others| - 1], others[|others| - 1], b.Pattern() + rest;
      OthersPass(b, rest, init);
      assert last in others;
      if last.Pattern() <= s {
        OnePattern(b, rest, last);
      }
      ReplaceSkips(s, last);
      var tail := s[1..];
      assert forall i :: 0 <= i < |tail| ==> tail[i] == s[i + 1];
      assert OpenFree(tail);
      OpenFreeOpensNothing(tail, last.Pattern());
      ReplacePasses(tail, "", last);
      assert tail + "" == tail;
    }
  }

  /** What a value lacks of a placeholder that it opens. */
  lemma {:induction false} OpensCompletes(v: string, b: Binding) returns (rest: string)
    requires BraceFree(b.name) && Opens(v, b.Pattern())
    ensures OpenFree(rest) && Occurs(v + rest, b)
  {
    var p := b.Pattern();
    if p <= v {
      rest := "";
      assert p <= (v + rest)[0..];
    } else if v[0] == '{' && v <= p {
      rest := p[|v|..];
      PatternRest(b, |v|);
      assert (v + rest)[0..] == p;
    } else {
      rest := OpensCompletes(v[1..], b);
      HeadTail(v, rest);
      OccursCons(v + rest, b);
    }
  }

  lemma PatternRest(b: Binding, n: nat)
    requires BraceFree(b.name) && 0 < n <= |b.Pattern()|
    ensures OpenFree(b.Pattern()[n..])
  {
    var p := b.Pattern();
    forall i | n <= i < |p| ensures p[i] != '{' {
      assert i <= |b.name| ==> p[i] == b.name[i - 1];
    }
  }

  lemma ReplacesPattern(b: Binding, rest: string)
    requires OpenFree(rest)
    ensures Replace(b.Pattern() + rest, b) == b.value + rest
  {
    OpenFreeOpensNothing(rest, b.Pattern());
    ReplacePasses(rest, "", b);
    assert rest + "" == rest;
    PatternReplaced(b, rest);
  }

  lemma SequentialTo(s: string, bs: seq<Binding>, k: nat)
    requires k < |bs|
    ensures Sequential(s, bs[..k + 1]) == Replace(Sequential(s, bs[..k]), bs[k])
    ensures bs == bs[..k + 1] + bs[k + 1..]
  {
    assert bs[..k + 1][..k] == bs[..k];
  }

  lemma OtherNames(bs: seq<Binding>, k: nat)
    requires k < |bs| && DistinctNames(bs)
    ensures forall x :: x in bs[..k] ==> BraceFree(x.name) && x.name != bs[k].name
  {
  }

  lemma SequentialOnPattern(bs: seq<Binding>, k: nat, rest: string)
    requires k < |bs| && DistinctNames(bs) && OpenFree(rest)
    ensures Sequential(bs[k].Pattern() + rest, bs) == Sequential(bs[k].value + rest, bs[k + 1..])
  {
    var s := bs[k].Pattern() + rest;
    OtherNames(bs, k);
    OthersPass(bs[k], rest, bs[..k]);
    ReplacesPattern(bs[k], rest);
    SequentialTo(s, bs, k);
    SequentialJoin(s, bs[..k + 1], bs[k + 1..]);
  }

  lemma SimultaneousOnPattern(bs: seq<Binding>, k: nat, rest: string)
    requires k < |bs| && DistinctNames(bs) && OpenFree(rest)
    ensures Simultaneous(bs[k].Pattern() + rest, bs) == bs[k].value + rest
  {
    var b := bs[k];
    MatchOf(b, rest, bs);
    assert (b.Pattern() + rest)[|b.Pattern()|..] == rest;
    SimultaneousPasses(rest, "", bs);
    assert rest + "" == rest;
  }

  lemma PatternUnnested(b: Binding, rest: string)
    requires BraceFree(b.name) && OpenFree(rest)
    ensures Unnested(b.Pattern() + rest)
  {
    var p, s := b.Pattern(), b.Pattern() + rest;
    forall i | 0 < i < |s| ensures s[i] != '{' {
      assert i <= |b.name| ==> s[i] == b.name[i - 1];
    }
  }

  /** A text on which one pass is not enough: the placeholder, and what its value lacks of the
      later placeholder that it opens. */
  lemma {:induction false} OpenedLater(bs: seq<Binding>, k: nat, j: nat) returns (s: string)
    requires k < j < |bs| && DistinctNames(bs) && Opens(bs[k].value, bs[j].Pattern())
    requires forall i :: 0 <= i < |bs| && i != k ==> OpenFree(bs[i].value)
    ensures Unnested(s) && Sequential(s, bs) != Simultaneous(s, bs)
  {
    var later := bs[k + 1..];
    assert bs[j] in bs && bs[k] in bs;
    var rest := OpensCompletes(bs[k].value, bs[j]);
    s := bs[k].Pattern() + rest;
    PatternUnnested(bs[k], rest);
    SequentialOnPattern(bs, k, rest);
    SimultaneousOnPattern(bs, k, rest);
    assert later[j - k - 1] == bs[j];
    SequentialCounts(bs[k].value + rest, later);
  }

  lemma OpensNoLaterFrom(bs: seq<Binding>, k: nat)
    requires k < |bs| && forall i :: 0 <= i < |bs| && i != k ==> OpenFree(bs[i].value)
    requires forall j :: k < j < |bs| ==> !Opens(bs[k].value, bs[j].Pattern())
    ensures OpensNoLater(bs)
  {
    forall i, j | 0 <= i < j < |bs| ensures !Opens(bs[i].value, bs[j].Pattern()) {
      if i != k {
        OpenFreeOpensNothing(bs[i].value, bs[j].Pattern());
      }
    }
  }

  /** When all values but one are free of braces, one pass is enough for every unnested template
      if and only if that value opens no placeholder that is replaced after its own. */
  lemma {:induction false} OnePassIff(bs: seq<Binding>, k: nat)
    requires k < |bs| && DistinctNames(bs)
    requires forall i :: 0 <= i < |bs| && i != k ==> OpenFree(bs[i].value)
    ensures (forall s {:trigger Unnested(s)} :: Unnested(s) ==> Sequential(s, bs) == Simultaneous(s, bs))
       <==> (forall j :: k < j < |bs| ==> !Opens(bs[k].value, bs[j].Pattern()))
  {
    if j :| k < j < |bs| && Opens(bs[k].value, bs[j].Pattern()) {
      var s := OpenedLater(bs, k, j);
    } else {
      OpensNoLaterFrom(bs, k);
      forall s {:trigger Unnested(s)} | Unnested(s) ensures Sequential(s, bs) == Simultaneous(s, bs) {
        SequentialIsSimultaneous(s, bs);
      }
    }
  }

  // ----- The seven placeholders -----

  /** The values for one hook run, in the order in which they are substituted. */
  function Bindings(ip: string, client: string, port: u16, param: string, isNew: string, reason: string,
                    ipClients: string): seq<Binding>
  {
    [Binding("ip", ip), Binding("client_id", client), Binding("source_port", Decimal(port)), Binding("param", param),
     Binding("new", isNew), Binding("reason", reason), Binding("ip_clients", ipClients)]
  }

  function ReplaceSeven(s: string, bs: seq<Binding>): string
    requires |bs| == 7
  {
    Replace(Replace(Replace(Replace(Replace(Replace(Replace(s, bs[0]), bs[1]), bs[2]), bs[3]), bs[4]), bs[5]), bs[6])
  }

  function SubstitutePlaceholders(arg: string, ip: string, client: string, port: u16, param: string, isNew: string,
                                  reason: string, ipClients: string): string
  {
    ReplaceSeven(arg, Bindings(ip, client, port, param, isNew, reason, ipClients))
  }

  lemma DigitsBraceFree(n: nat)
    ensures BraceFree(Digits(n))
  {
  }

  lemma SevenReplaces(s: string, bs: seq<Binding>)
    requires |bs| == 7
    ensures Sequential(s, bs) == ReplaceSeven(s, bs)
  {
    assert bs[..6][..5] == bs[..5] && bs[..5][..4] == bs[..4] && bs[..4][..3] == bs[..3];
    assert bs[..3][..2] == bs[..2] && bs[..2][..1] == bs[..1] && bs[..1][..0] == [];
    assert Sequential(s, bs[..1]) == Replace(s, bs[0]);
    assert Sequential(s, bs[..2]) == Replace(Sequential(s, bs[..1]), bs[1]);
    assert Sequential(s, bs[..3]) == Replace(Sequential(s, bs[..2]), bs[2]);
    assert Sequential(s, bs[..4]) == Replace(Sequential(s, bs[..3]), bs[3]);
    assert Sequential(s, bs[..5]) == Replace(Sequential(s, bs[..4]), bs[4]);
    assert Sequential(s, bs[..6]) == Replace(Sequential(s, bs[..5]), bs[5]);
  }

  lemma NamesByLength(bs: seq<Binding>)
    requires forall b :: b in bs ==> BraceFree(b.name)
    requires forall i, j :: 0 <= i < j < |bs| ==> |bs[i].name| != |bs[j].name|
    ensures DistinctNames(bs)
  {
  }

  lemma SevenDistinct(ip: string, client: string, port: u16, param: string, isNew: string, reason: string,
                      ipClients: string)
    ensures DistinctNames(Bindings(ip, client, port, param, isNew, reason, ipClients))
  {
    var bs := Bindings(ip, client, port, param, isNew, reason, ipClients);
    assert BraceFree("ip") && BraceFree("client_id") && BraceFree("source_port") && BraceFree("param");
    assert BraceFree("new") && BraceFree("reason") && BraceFree("ip_clients");
    NamesByLength(bs);
  }

  /** One pass is enough for every unnested argument. */
  ghost predicate OnePass(bs: seq<Binding>)
    requires |bs| == 7
  {
    forall arg {:trigger Unnested(arg)} :: Unnested(arg) ==> ReplaceSeven(arg, bs) == Simultaneous(arg, bs)
  }

  lemma OnePassSeven(bs: seq<Binding>)
    requires |bs| == 7
    ensures OnePass(bs) <==> forall s {:trigger Unnested(s)} :: Unnested(s) ==> Sequential(s, bs) == Simultaneous(s, bs)
  {
    forall arg ensures Sequential(arg, bs) == ReplaceSeven(arg, bs) {
      SevenReplaces(arg, bs);
    }
  }

  lemma LaterThree(bs: seq<Binding>)
    requires |bs| == 7
    ensures (forall j :: 3 < j < 7 ==> !Opens(bs[3].value, bs[j].Pattern()))
       <==> (&& !Opens(bs[3].value, bs[4].Pattern()) && !Opens(bs[3].value, bs[5].Pattern())
             && !Opens(bs[3].value, bs[6].Pattern()))
  {
  }

  lemma OthersOpenFree(ip: string, client: string, port: u16, param: string, isNew: string, reason: string,
                       ipClients: string)
    requires BraceFree(ip) && BraceFree(client) && BraceFree(isNew) && BraceFree(reason) && BraceFree(ipClients)
    ensures var bs := Bindings(ip, client, port, param, isNew, reason, ipClients);
            forall i :: 0 <= i < 7 && i != 3 ==> OpenFree(bs[i].value)
  {
    DigitsBraceFree(port);
  }

  lemma LaterPatterns(isNew: string, reason: string, ipClients: string)
    ensures Binding("new", isNew).Pattern() == "{new}" && Binding("reason", reason).Pattern() == "{reason}"
    ensures Binding("ip_clients", ipClients).Pattern() == "{ip_clients}"
  {
  }

  /** Of the values of a hook argument only the param is free text. Whatever it is, the seven
      replaces in a row substitute every unnested argument in one pass if and only if the param
      opens none of the three placeholders replaced after it. */
  lemma HookArgumentIsOnePassIff(ip: string, client: string, port: u16, param: string, isNew: string, reason: string,
                                 ipClients: string)
    requires BraceFree(ip) && BraceFree(client) && BraceFree(isNew) && BraceFree(reason) && BraceFree(ipClients)
    ensures OnePass(Bindings(ip, client, port, param, isNew, reason, ipClients))
       <==> !Opens(param, "{new}") && !Opens(param, "{reason}") && !Opens(param, "{ip_clients}")
  {
    var bs := Bindings(ip, client, port, param, isNew, reason, ipClients);
    SevenDistinct(ip, client, port, param, isNew, reason, ipClients);
    OthersOpenFree(ip, client, port, param, isNew, reason, ipClients);
    LaterPatterns(isNew, reason, ipClients);
    OnePassIff(bs, 3);
    OnePassSeven(bs);
    LaterThree(bs);
  }

  // ----- What an argument becomes -----

  lemma {:induction false} ValuePasses(v: string, x: string, others: seq<Binding>)
    requires forall b :: b in others ==> !Opens(v, b.Pattern())
    ensures Sequential(v + x, others) == v + Sequential(x, others)
  {
    if others != [] {
      var init, last := others[..|others| - 1], others[|others| - 1];
      assert others == init + [last];
      ValuePasses(v, x, init);
      ReplacePasses(v, Sequential(x, init), last);
    }
  }

  lemma OtherPasses(b: Binding, rest: string, other: Binding)
    requires BraceFree(b.name) && BraceFree(other.name) && b.name != other.name
    ensures Replace(b.Pattern() + rest, other) == b.Pattern() + Replace(rest, other)
  {
    var p := b.Pattern();
    var tail := p[1..];
    if other.Pattern() <= p + rest {
      OnePattern(b, rest, other);
    }
    HeadTail(p, rest);
    HeadTail(p, Replace(rest, other));
    ReplaceSkips(p + rest, other);
    PatternRest(b, 1);
    OpenFreeOpensNothing(tail, other.Pattern());
    ReplacePasses(tail, rest, other);
  }

  /** Placeholders of other names leave this one alone, whatever follows it. */
  lemma {:induction false} OthersPassOver(b: Binding, rest: string, others: seq<Binding>)
    requires BraceFree(b.name) && forall x :: x in others ==> BraceFree(x.name) && x.name != b.name
    ensures Sequential(b.Pattern() + rest, others) == b.Pattern() + Sequential(rest, others)
  {
    if others != [] {
      var init, last := others[..|others| - 1], others[|others| - 1];
      assert others == init + [last];
      OthersPassOver(b, rest, init);
      OtherPasses(b, Sequential(rest, init), last);
    }
  }

  /** A placeholder becomes its value, in front of whatever the rest becomes. */
  lemma SlotBecomes(bs: seq<Binding>, k: nat, rest: string)
    requires k < |bs| && DistinctNames(bs)
    requires forall j :: k < j < |bs| ==> !Opens(bs[k].value, bs[j].Pattern())
    ensures Sequential(bs[k].Pattern() + rest, bs) == bs[k].value + Sequential(rest, bs)
  {
    var s, later := bs[k].Pattern() + rest, bs[k + 1..];
    assert bs[k] in bs;
    OtherNames(bs, k);
    OthersPassOver(bs[k], rest, bs[..k]);
    PatternReplaced(bs[k], Sequential(rest, bs[..k]));
    SequentialTo(s, bs, k);
    SequentialTo(rest, bs, k);
    SequentialJoin(s, bs[..k + 1], later);
    SequentialJoin(rest, bs[..k + 1], later);
    ValuePasses(bs[k].value, Sequential(rest, bs[..k + 1]), later);
  }

  /** A hook argument, piece by piece. */
  datatype Piece =
    | Literal(text: string) | IpSlot | ClientSlot | PortSlot | ParamSlot | NewSlot | ReasonSlot | CountSlot

  /** How a piece is written in a template. */
  function Written(p: Piece): string {
    match p
    case Literal(text) => text
    case IpSlot => "{ip}"
    case ClientSlot => "{client_id}"
    case PortSlot => "{source_port}"
    case ParamSlot => "{param}"
    case NewSlot => "{new}"
    case ReasonSlot => "{reason}"
    case CountSlot => "{ip_clients}"
  }

  function Template(pieces: seq<Piece>): string {
    if pieces == [] then "" else Written(pieces[0]) + Template(pieces[1..])
  }

  /** What the hook is to be given for a piece. */
  function Given(p: Piece, ip: string, client: string, port: u16, param: string, isNew: string, reason: string,
                 ipClients: string): string
  {
    match p
    case Literal(text) => text
    case IpSlot => ip
    case ClientSlot => client
    case PortSlot => Decimal(port)
    case ParamSlot => param
    case NewSlot => isNew
    case ReasonSlot => reason
    case CountSlot => ipClients
  }

  function Argument(pieces: seq<Piece>, ip: string, client: string, port: u16, param: string, isNew: string,
                    reason: string, ipClients: string): string
  {
    if pieces == [] then ""
    else Given(pieces[0], ip, client, port, param, isNew, reason, ipClients)
         + Argument(pieces[1..], ip, client, port, param, isNew, reason, ipClients)
  }

  /** Text in which none of the seven placeholders begins; other braces may. */
  predicate Plain(u: string) {
    && !Opens(u, "{ip}") && !Opens(u, "{client_id}") && !Opens(u, "{source_port}") && !Opens(u, "{param}")
    && !Opens(u, "{new}") && !Opens(u, "{reason}") && !Opens(u, "{ip_clients}")
  }

  predicate Settled(param: string) {
    !Opens(param, "{new}") && !Opens(param, "{reason}") && !Opens(param, "{ip_clients}")
  }

  lemma EarlierPatterns(ip: string, client: string, port: string, param: string)
    ensures Binding("ip", ip).Pattern() == "{ip}" && Binding("client_id", client).Pattern() == "{client_id}"
    ensures Binding("source_port", port).Pattern() == "{source_port}" && Binding("param", param).Pattern() == "{param}"
  {
  }

  /** Each slot is at its place in the list of bindings, with its value. */
  lemma SlotAt(p: Piece, ip: string, client: string, port: u16, param: string, isNew: string, reason: string,
               ipClients: string) returns (k: nat)
    requires !p.Literal?
    ensures var bs := Bindings(ip, client, port, param, isNew, reason, ipClients);
            k < |bs| == 7 && bs[k].Pattern() == Written(p)
            && bs[k].value == Given(p, ip, client, port, param, isNew, reason, ipClients)
            && (k == 3 <==> p.ParamSlot?) && (k == 6 <==> p.CountSlot?)
  {
    EarlierPatterns(ip, client, Decimal(port), param);
    LaterPatterns(isNew, reason, ipClients);
    k := match p case IpSlot => 0 case ClientSlot => 1 case PortSlot => 2 case ParamSlot => 3 case NewSlot => 4
                 case ReasonSlot => 5 case CountSlot => 6;
  }

  /** No value opens a placeholder that is replaced after its own. */
  lemma ValuesSettled(ip: string, client: string, port: u16, param: string, isNew: string, reason: string,
                      ipClients: string, k: nat, j: nat)
    requires BraceFree(ip) && BraceFree(client) && BraceFree(isNew) && BraceFree(reason) && Settled(param)
    requires k < j < 7
    ensures var bs := Bindings(ip, client, port, param, isNew, reason, ipClients);
            !Opens(bs[k].value, bs[j].Pattern())
  {
    var bs := Bindings(ip, client, port, param, isNew, reason, ipClients);
    LaterPatterns(isNew, reason, ipClients);
    DigitsBraceFree(port);
    if k != 3 {
      OpenFreeOpensNothing(bs[k].value, bs[j].Pattern());
    }
  }

  lemma PieceBecomes(p: Piece, rest: string, ip: string, client: string, port: u16, param: string, isNew: string,
                     reason: string, ipClients: string)
    requires BraceFree(ip) && BraceFree(client) && BraceFree(isNew) && BraceFree(reason) && Settled(param)
    requires p.Literal? ==> Plain(p.text)
    ensures var bs := Bindings(ip, client, port, param, isNew, reason, ipClients);
            Sequential(Written(p) + rest, bs)
              == Given(p, ip, client, port, param, isNew, reason, ipClients) + Sequential(rest, bs)
  {
    var bs := Bindings(ip, client, port, param, isNew, reason, ipClients);
    if p.Literal? {
      EarlierPatterns(ip, client, Decimal(port), param);
      LaterPatterns(isNew, reason, ipClients);
      assert forall b :: b in bs ==> !Opens(p.text, b.Pattern());
      ValuePasses(p.text, rest, bs);
    } else {
      var k := SlotAt(p, ip, client, port, param, isNew, reason, ipClients);
      SevenDistinct(ip, client, port, param, isNew, reason, ipClients);
      forall j | k < j < 7 ensures !Opens(bs[k].value, bs[j].Pattern()) {
        ValuesSettled(ip, client, port, param, isNew, reason, ipClients, k, j);
      }
      SlotBecomes(bs, k, rest);
    }
  }

  lemma {:induction false} EmptyStays(bs: seq<Binding>)
    ensures Sequential("", bs) == ""
  {
    if bs != [] {
      EmptyStays(bs[..|bs| - 1]);
    }
  }

  lemma {:induction false} TemplateBecomes(pieces: seq<Piece>, ip: string, client: string, port: u16, param: string,
                                           isNew: string, reason: string, ipClients: string)
    requires BraceFree(ip) && BraceFree(client) && BraceFree(isNew) && BraceFree(reason) && Settled(param)
    requires forall p :: p in pieces && p.Literal? ==> Plain(p.text)
    ensures Sequential(Template(pieces), Bindings(ip, client, port, param, isNew, reason, ipClients))
         == Argument(pieces, ip, client, port, param, isNew, reason, ipClients)
  {
    if pieces == [] {
      EmptyStays(Bindings(ip, client, port, param, isNew, reason, ipClients));
    } else {
      TemplateBecomes(pieces[1..], ip, client, port, param, isNew, reason, ipClients);
      PieceBecomes(pieces[0], Template(pieces[1..]), ip, client, port, param, isNew, reason, ipClients);
    }
  }

  /** What the hook is given, for every argument made of the seven placeholders, in any order and
      any number, and of text in which none of them begins: exactly the value named by each
      placeholder, and the text as it stands. Of the values only the param is free text; it must
      not open one of the three placeholders replaced after it. */
  lemma {:induction false} ArgumentIs(pieces: seq<Piece>, ip: string, client: string, port: u16, param: string,
                                      isNew: string, reason: string, ipClients: string)
    requires BraceFree(ip) && BraceFree(client) && BraceFree(isNew) && BraceFree(reason) && Settled(param)
    requires forall p :: p in pieces && p.Literal? ==> Plain(p.text)
    ensures SubstitutePlaceholders(Template(pieces), ip, client, port, param, isNew, reason, ipClients)
         == Argument(pieces, ip, client, port, param, isNew, reason, ipClients)
  {
    TemplateBecomes(pieces, ip, client, port, param, isNew, reason, ipClients);
    SevenReplaces(Template(pieces), Bindings(ip, client, port, param, isNew, reason, ipClients));
  }

  lemma {:induction false} SlotAlone(p: Piece, ip: string, client: string, port: u16, param: string, isNew: string,
                                     reason: string, ipClients: string)
    requires BraceFree(ip) && BraceFree(client) && BraceFree(isNew) && BraceFree(reason) && Settled(param)
    requires !p.Literal?
    ensures SubstitutePlaceholders(Written(p), ip, client, port, param, isNew, reason, ipClients)
         == Given(p, ip, client, port, param, isNew, reason, ipClients)
  {
    ArgumentIs([p], ip, client, port, param, isNew, reason, ipClients);
    assert [p][1..] == [];
    assert Template([p]) == Written(p) + Template([]) == Written(p);
  }

  // ----- Nested templates -----

  /** No placeholder stands at a brace behind which another brace opens first. */
  lemma NestedIsNoMatch(a: string, inner: string, x: Binding)
    requires BraceFree(a) && BraceFree(x.name) && inner != "" && inner[0] == '{'
    ensures !(x.Pattern() <= ['{'] + (a + inner))
  {
    var after := a + inner;
    assert after[..|a|] == a && after[|a|] == '{';
    if x.Pattern() <= ['{'] + after {
      PatternTail(x, after);
    }
  }

  lemma ReplaceNested(a: string, d: string, b: Binding)
    requires BraceFree(a) && BraceFree(b.name) && BraceFree(d)
    ensures Replace(['{'] + (a + (b.Pattern() + (d + ['}']))), b) == ['{'] + (a + (b.value + (d + ['}'])))
  {
    var close := d + ['}'];
    var inner := b.Pattern() + close;
    var s := ['{'] + (a + inner);
    NestedIsNoMatch(a, inner, b);
    ReplaceSkips(s, b);
    assert s[1..] == a + inner;
    OpenFreeOpensNothing(a, b.Pattern());
    ReplacePasses(a, inner, b);
    PatternReplaced(b, close);
    OpenFreeOpensNothing(close, b.Pattern());
    ReplacePasses(close, "", b);
    assert close + "" == close;
  }

  lemma SimultaneousNested(a: string, d: string, bs: seq<Binding>, b: Binding)
    requires BraceFree(a) && BraceFree(d) && DistinctNames(bs) && b in bs
    ensures Simultaneous(['{'] + (a + (b.Pattern() + (d + ['}']))), bs) == ['{'] + (a + (b.value + (d + ['}'])))
  {
    var close := d + ['}'];
    var inner := b.Pattern() + close;
    var s := ['{'] + (a + inner);
    MatchIsPrefix(s, bs);
    if Match(s, bs).Some? {
      NestedIsNoMatch(a, inner, Match(s, bs).value);
    }
    SimultaneousSkips(s, bs);
    assert s[1..] == a + inner;
    SimultaneousPasses(a, inner, bs);
    MatchOf(b, close, bs);
    assert inner[|b.Pattern()|..] == close;
    SimultaneousPasses(close, "", bs);
    assert close + "" == close;
  }

  /** Why templates must be unnested: in a nested one, even a value without braces can complete
      an outer placeholder. */
  lemma NestedTemplateIsSubstitutedAgain(first: Binding, second: Binding, a: string, d: string)
    requires BraceFree(first.name) && BraceFree(second.name) && first.name != second.name
    requires second.name == a + first.value + d
    ensures var s := ['{'] + (a + (first.Pattern() + (d + ['}'])));
            Sequential(s, [first, second]) == second.value && Simultaneous(s, [first, second]) == second.Pattern()
  {
    var bs, s := [first, second], ['{'] + (a + (first.Pattern() + (d + ['}'])));
    var n := second.name;
    assert a == n[..|a|] && d == n[|n| - |d|..];
    assert bs[..1] == [first] && [first][..0] == [];
    ReplaceNested(a, d, first);
    assert Sequential(s, [first]) == Replace(s, first);
    assert ['{'] + (a + (first.value + (d + ['}']))) == second.Pattern();
    PatternReplaced(second, "");
    assert second.Pattern() + "" == second.Pattern() && second.value + "" == second.value;
    SimultaneousNested(a, d, bs, first);
  }

  lemma SlotsAlone(ip: string, client: string, port: u16, param: string, isNew: string, reason: string,
                   ipClients: string)
    requires BraceFree(ip) && BraceFree(client) && BraceFree(isNew) && BraceFree(reason) && Settled(param)
    ensures SubstitutePlaceholders("{ip}", ip, client, port, param, isNew, reason, ipClients) == ip
    ensures SubstitutePlaceholders("{client_id}", ip, client, port, param, isNew, reason, ipClients) == client
    ensures SubstitutePlaceholders("{source_port}", ip, client, port, param, isNew, reason, ipClients) == Decimal(port)
    ensures SubstitutePlaceholders("{param}", ip, client, port, param, isNew, reason, ipClients) == param
    ensures SubstitutePlaceholders("{new}", ip, client, port, param, isNew, reason, ipClients) == isNew
    ensures SubstitutePlaceholders("{reason}", ip, client, port, param, isNew, reason, ipClients) == reason
    ensures SubstitutePlaceholders("{ip_clients}", ip, client, port, param, isNew, reason, ipClients) == ipClients
  {
    SlotAlone(IpSlot, ip, client, port, param, isNew, reason, ipClients);
    SlotAlone(ClientSlot, ip, client, port, param, isNew, reason, ipClients);
    SlotAlone(PortSlot, ip, client, port, param, isNew, reason, ipClients);
    SlotAlone(ParamSlot, ip, client, port, param, isNew, reason, ipClients);
    SlotAlone(NewSlot, ip, client, port, param, isNew, reason, ipClients);
    SlotAlone(ReasonSlot, ip, client, port, param, isNew, reason, ipClients);
    SlotAlone(CountSlot, ip, client, port, param, isNew, reason, ipClients);
  }

  /** Each template element is substituted on its own: none is split, joined or dropped. An
      element that is one of the seven placeholders becomes the value it names. */
  method BuildArgv(template: seq<string>, ip: string, client: string, port: u16, param: string, isNew: string,
                   reason: string, ipClients: string) returns (argv: seq<string>)
    ensures |argv| == |template|
    ensures forall i :: 0 <= i < |template| ==>
              argv[i] == SubstitutePlaceholders(template[i], ip, client, port, param, isNew, reason, ipClients)
    ensures BraceFree(ip) && BraceFree(client) && BraceFree(isNew) && BraceFree(reason)
            && !Opens(param, "{new}") && !Opens(param, "{reason}") && !Opens(param, "{ip_clients}") ==>
              forall i :: 0 <= i < |template| ==>
                && (template[i] == "{ip}" ==> argv[i] == ip)
                && (template[i] == "{client_id}" ==> argv[i] == client)
                && (template[i] == "{source_port}" ==> argv[i] == Decimal(port))
                && (template[i] == "{param}" ==> argv[i] == param)
                && (template[i] == "{new}" ==> argv[i] == isNew)
                && (template[i] == "{reason}" ==> argv[i] == reason)
                && (template[i] == "{ip_clients}" ==> argv[i] == ipClients)
  {
    if BraceFree(ip) && BraceFree(client) && BraceFree(isNew) && BraceFree(reason) && Settled(param) {
      SlotsAlone(ip, client, port, param, isNew, reason, ipClients);
    }
    argv := [];
    for i := 0 to |template|
      invariant |argv| == i
      invariant forall j :: 0 <= j < i ==>
                  argv[j] == SubstitutePlaceholders(template[j], ip, client, port, param, isNew, reason, ipClients)
    {
      argv := argv + [SubstitutePlaceholders(template[i], ip, client, port, param, isNew, reason, ipClients)];
    }
  }
}
