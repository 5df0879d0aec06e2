/** The Java source scanners and path filters: whitespace search, quoted-id
    extraction, the `package` and `class` line scanners, the three block-id
    line processors, the package rewrite for the `blockshape` package, the
    path filters for model and blockstate files, and the `ids:` line of a
    block's summary. */
module Scan {
  import opened Wrappers
  import opened Text

  // ---------------------------------------------------------------------------
  // Whitespace search
  // ---------------------------------------------------------------------------

  /** The bytes `first_ws` and `first_non_ws` treat as white space. */
  const Whitespace: string := " \t\n\r"

  predicate IsWs(c: char) {
    c in Whitespace
  }

  /** `first_non_ws`: the index of the first byte that is not white space, or
      None when every byte is. */
  method FirstNonWs(line: string) returns (r: Option<nat>)
    ensures r.Some? ==> r.value < |line| && !IsWs(line[r.value])
    ensures r.Some? ==> forall i :: 0 <= i < r.value ==> IsWs(line[i])
    ensures r.None? <==> forall i :: 0 <= i < |line| ==> IsWs(line[i])
  {
    for i := 0 to |line|
      invariant forall k :: 0 <= k < i ==> IsWs(line[k])
    {
      if !IsWs(line[i]) {
        return Some(i);
      }
    }
    return None;
  }

  /** `first_ws`: always Some; the index of the first white-space byte, or the
      length of the line when there is none. */
  method FirstWs(line: string) returns (r: Option<nat>)
    ensures r.Some? && r.value <= |line|
    ensures r.value < |line| ==> IsWs(line[r.value])
    ensures forall i :: 0 <= i < r.value ==> !IsWs(line[i])
  {
    for i := 0 to |line|
      invariant forall k :: 0 <= k < i ==> !IsWs(line[k])
    {
      if IsWs(line[i]) {
        return Some(i);
      }
    }
    return Some(|line|);
  }

  // ---------------------------------------------------------------------------
  // Quoted ids
  // ---------------------------------------------------------------------------

  const Quote: char := '"'

  /** The index of the first quote of `s` at or after `from`. This is what
      `str::find("\"")` on the tail `s[from..]` reports, shifted back by
      `from` (QuoteFromIsFind); QuoteFromFirst shows it is the first. */
  function QuoteFrom(s: string, from: nat): (r: Option<nat>)
    requires from <= |s|
    ensures r.Some? ==> from <= r.value < |s| && s[r.value] == Quote
    decreases |s| - from
  {
    if from == |s| then None
    else if s[from] == Quote then Some(from)
    else QuoteFrom(s, from + 1)
  }

  /** No quote comes between `from` and the quote QuoteFrom reports, and
      there is none at all from `from` on when it reports nothing. */
  lemma {:induction false} QuoteFromFirst(s: string, from: nat)
    requires from <= |s|
    ensures QuoteFrom(s, from).Some? ==> forall i :: from <= i < QuoteFrom(s, from).value ==> s[i] != Quote
    ensures QuoteFrom(s, from).None? ==> forall i :: from <= i < |s| ==> s[i] != Quote
    decreases |s| - from
  {
    if from < |s| && s[from] != Quote {
      QuoteFromFirst(s, from + 1);
    }
  }

  /** QuoteFrom is `str::find("\"")` run on the tail `s[from..]`, with the
      index it reports shifted back by `from`. */
  lemma QuoteFromIsFind(s: string, from: nat)
    requires from <= |s|
    ensures QuoteFrom(s, from).None? <==> Find(s[from..], [Quote]).None?
    ensures QuoteFrom(s, from).Some? ==> QuoteFrom(s, from).value == from + Find(s[from..], [Quote]).value
  {
    var tail := s[from..];
    FindChar(tail, Quote);
    QuoteFromFirst(s, from);
    match QuoteFrom(s, from) {
      case None =>
        assert Quote !in tail by {
          forall i | 0 <= i < |tail| ensures tail[i] != Quote { assert tail[i] == s[from + i]; }
        }
      case Some(k) =>
        assert tail[k - from] == Quote;
        var f := IndexOf(tail, Quote).value;
        assert tail[f] == Quote && Quote !in tail[..f];
    }
  }

  /** Searching a tail of `s` finds the same quote as searching `s` from the
      start of that tail. */
  lemma {:induction false} QuoteFromShift(s: string, start: nat, from: nat)
    requires start + from <= |s|
    ensures QuoteFrom(s[start..], from).None? <==> QuoteFrom(s, start + from).None?
    ensures QuoteFrom(s, start + from).Some? ==>
      start + QuoteFrom(s[start..], from).value == QuoteFrom(s, start + from).value
    decreases |s| - start - from
  {
    if start + from < |s| {
      assert s[start..][from] == s[start + from];
      if s[start + from] != Quote {
        QuoteFromShift(s, start, from + 1);
      }
    }
  }

  /** `find_dquots` run on the tail `s[from..]`, with the two positions it
      reports given as indices of `s`: the first quote of the tail, unless it
      is the tail's last byte, and the next quote after it. */
  function DquotsFrom(s: string, from: nat): (r: Option<(nat, nat)>)
    requires from <= |s|
    ensures r.Some? ==> from <= r.value.0 < r.value.1 < |s| && s[r.value.0] == Quote && s[r.value.1] == Quote
  {
    match QuoteFrom(s, from)
    case None => None
    case Some(start) =>
      if start >= |s| - 1 then None
      else
        match QuoteFrom(s, start + 1)
        case None => None
        case Some(end) => Some((start, end))
  }

  /** The pair DquotsFrom reports are the first two quotes from `from` on. */
  lemma DquotsFromFirst(s: string, from: nat)
    requires from <= |s|
    ensures DquotsFrom(s, from).Some? ==>
      forall i :: from <= i < DquotsFrom(s, from).value.1 && i != DquotsFrom(s, from).value.0 ==> s[i] != Quote
  {
    QuoteFromFirst(s, from);
    var first := QuoteFrom(s, from);
    if first.Some? && first.value < |s| - 1 {
      QuoteFromFirst(s, first.value + 1);
    }
  }

  /** `find_dquots`: the first double quote and the next one after it. */
  function FindDquots(s: string): (r: Option<(nat, nat)>)
    ensures r.Some? ==> r.value.0 < r.value.1 < |s| && s[r.value.0] == Quote && s[r.value.1] == Quote
  {
    DquotsFrom(s, 0)
  }

  /** `find_dquots` reports the first two quotes of the text, with no quote
      between them, and fails exactly when the text holds fewer than two
      quotes: no quote, a single quote, or a first quote that is the last
      byte. */
  lemma FindDquotsSpec(s: string)
    ensures FindDquots(s).Some? ==>
      forall i :: 0 <= i < FindDquots(s).value.1 && i != FindDquots(s).value.0 ==> s[i] != Quote
    ensures FindDquots(s).None? <==> forall a, b :: 0 <= a < b < |s| && s[a] == Quote ==> s[b] != Quote
  {
    DquotsFromFirst(s, 0);
    QuoteFromFirst(s, 0);
    if QuoteFrom(s, 0).Some? && QuoteFrom(s, 0).value < |s| - 1 {
      QuoteFromFirst(s, QuoteFrom(s, 0).value + 1);
    }
    if FindDquots(s).None? {
      forall a, b | 0 <= a < b < |s| && s[a] == Quote ensures s[b] != Quote {
        var first := QuoteFrom(s, 0);
        assert first.Some?;
        assert QuoteFrom(s, first.value + 1).None?;
      }
    }
  }

  /** `find_dquots` on a tail of `s` reports, shifted, the pair DquotsFrom
      finds in `s` from the start of that tail. */
  lemma FindDquotsShift(s: string, start: nat)
    requires start <= |s|
    ensures FindDquots(s[start..]).None? <==> DquotsFrom(s, start).None?
    ensures DquotsFrom(s, start).Some? ==>
      && start + FindDquots(s[start..]).value.0 == DquotsFrom(s, start).value.0
      && start + FindDquots(s[start..]).value.1 == DquotsFrom(s, start).value.1
  {
    QuoteFromShift(s, start, 0);
    var first := QuoteFrom(s, start);
    if first.Some? && first.value < |s| - 1 {
      QuoteFromShift(s, start, first.value - start + 1);
    }
  }

  /** What `read_quoted_ids` returns when its walk stands at `start` having
      collected `ids`: at the next pair of quotes the text between them is
      collected if non-empty, and the walk goes on after the closing quote
      unless that quote is the last byte; without a pair it stops. */
  function Walk(line: string, start: nat, ids: seq<string>): seq<string>
    requires start <= |line|
    decreases |line| - start
  {
    match DquotsFrom(line, start)
    case None => ids
    case Some((a, b)) =>
      var ids' := if |line[a + 1..b]| > 0 then ids + [line[a + 1..b]] else ids;
      if b + 1 >= |line| then ids' else Walk(line, b + 1, ids')
  }

  /** The ids `read_quoted_ids` returns for a text. */
  function QuotedIds(s: string): seq<string> {
    Walk(s, 0, [])
  }

  /** Ids free of quotes and non-empty. */
  predicate WellFormedIds(ids: seq<string>) {
    forall k :: 0 <= k < |ids| ==> |ids[k]| > 0 && Quote !in ids[k]
  }

  /** The walk only adds non-empty ids that hold no quote. */
  lemma {:induction false} WalkWellFormed(s: string, start: nat, ids: seq<string>)
    requires start <= |s| && WellFormedIds(ids)
    ensures WellFormedIds(Walk(s, start, ids))
    decreases |s| - start
  {
    if DquotsFrom(s, start).Some? {
      var a, b := DquotsFrom(s, start).value.0, DquotsFrom(s, start).value.1;
      var id := s[a + 1..b];
      var ids' := if |id| > 0 then ids + [id] else ids;
      var next: nat := b + 1;
      IdBetweenQuotes(s, start, a, b, id);
      WalkPair(s, start, a, b, id, ids, next, ids');
      assert WellFormedIds(ids');
      if next < |s| {
        WalkWellFormed(s, next, ids');
      }
    }
  }

  /** The text between a pair of quotes holds no quote. */
  lemma IdBetweenQuotes(s: string, start: nat, a: nat, b: nat, id: string)
    requires start <= |s| && DquotsFrom(s, start) == Some((a, b)) && id == s[a + 1..b]
    ensures Quote !in id
  {
    DquotsFromFirst(s, start);
    forall i | 0 <= i < |id| ensures id[i] != Quote {
      assert id[i] == s[a + 1 + i];
    }
  }

  /** Every quoted id is non-empty and holds no quote. */
  lemma QuotedIdsWellFormed(s: string)
    ensures forall k :: 0 <= k < |QuotedIds(s)| ==> |QuotedIds(s)[k]| > 0 && Quote !in QuotedIds(s)[k]
  {
    WalkWellFormed(s, 0, []);
  }

  /** `read_quoted_ids`: walk the line, collecting the non-empty text between
      each pair of quotes. Always returns Some. */
  method ReadQuotedIds(line: string) returns (r: Option<seq<string>>)
    ensures r == Some(QuotedIds(line))
  {
    var ids: seq<string> := [];
    var start: nat := 0;
    while true
      invariant start <= |line|
      invariant Walk(line, start, ids) == QuotedIds(line)
      decreases |line| - start
    {
      var slice := line[start..];
      var found := FindDquots(slice);
      if found.None? {
        WalkEnd(line, start, ids);
        return Some(ids);
      }
      var a, b := found.value.0, found.value.1;
      var id := slice[a + 1..b];
      var next: nat := start + b + 1;
      ghost var ids' := if |id| > 0 then ids + [id] else ids;
      WalkAt(line, start, a, b, id, ids, next, ids');
      if |id| > 0 {
        ids := ids + [id];
      }
      assert ids == ids';
      start := next;
      if start >= |line| {
        return Some(ids);
      }
    }
  }

  /** Where `find_dquots` finds no pair in the rest of the line, the walk
      stops with the ids it has. */
  lemma WalkEnd(line: string, start: nat, ids: seq<string>)
    requires start <= |line| && FindDquots(line[start..]).None?
    ensures Walk(line, start, ids) == ids
  {
    FindDquotsShift(line, start);
    WalkNoPair(line, start, ids);
  }

  /** Where `find_dquots` finds the pair (a, b) in the rest of the line, the
      walk collects the text between them, if non-empty, and goes on after
      the closing quote unless it is the last byte. */
  lemma WalkAt(line: string, start: nat, a: nat, b: nat, id: string, ids: seq<string>, next: nat, ids': seq<string>)
    requires start <= |line| && FindDquots(line[start..]) == Some((a, b)) && id == line[start..][a + 1..b]
    requires next == start + b + 1 && ids' == if |id| > 0 then ids + [id] else ids
    ensures next <= |line|
    ensures next >= |line| ==> Walk(line, start, ids) == ids'
    ensures next < |line| ==> Walk(line, start, ids) == Walk(line, next, ids')
  {
    FindDquotsShift(line, start);
    assert id == line[start + a + 1..start + b];
    WalkPair(line, start, start + a, start + b, id, ids, next, ids');
  }

  /** Reference definition: the non-empty pieces at odd positions of the
      text split at quotes, each followed by a closing quote. */
  function PairedPieces(ps: seq<string>): seq<string> {
    if |ps| < 3 then []
    else (if |ps[1]| > 0 then [ps[1]] else []) + PairedPieces(ps[2..])
  }

  /** A text with fewer than two quotes splits into at most two pieces. */
  lemma SplitFewQuotes(s: string)
    requires forall a, b :: 0 <= a < b < |s| && s[a] == Quote ==> s[b] != Quote
    ensures |Split(s, Quote)| <= 2
  {
    if Quote in s {
      var a := FirstIndex(s, Quote);
      var pre, rest := s[..a], s[a + 1..];
      assert Quote !in pre by {
        forall i | 0 <= i < |pre| ensures pre[i] != Quote { assert pre[i] == s[i]; }
      }
      assert Quote !in rest by {
        forall i | 0 <= i < |rest| ensures rest[i] != Quote { assert rest[i] == s[a + 1 + i]; }
      }
      assert s == pre + [Quote] + rest;
      SplitCons(pre, Quote, rest);
    }
  }

  /** The first pair of quotes splits off the first two pieces. */
  lemma SplitAtPair(s: string, a: nat, b: nat, mid: string, rest: seq<string>)
    requires a < b < |s| && s[a] == Quote && s[b] == Quote
    requires forall i :: 0 <= i < b && i != a ==> s[i] != Quote
    requires mid == s[a + 1..b] && rest == Split(s[b + 1..], Quote)
    ensures Split(s, Quote) == [s[..a], mid] + rest
  {
    var from: nat := a + 1;
    var u := s[from..];
    SplitAt(s, Quote, a, s[..a], u);
    var tail := s[b + 1..];
    SplitAtFrom(s, Quote, from, b, mid, tail);
    ConsTwo(s[..a], mid, rest, Split(u, Quote), Split(s, Quote));
  }

  lemma ConsTwo(x: string, y: string, rest: seq<string>, l2: seq<string>, l1: seq<string>)
    requires l2 == [y] + rest && l1 == [x] + l2
    ensures l1 == [x, y] + rest
  {
  }

  /** The walk from `start` adds exactly the non-empty texts between the 1st
      and 2nd quote of `s[start..]`, the 3rd and 4th, and so on, in
      left-to-right order; an unpaired last quote opens nothing. */
  lemma {:induction false} WalkArePairedPieces(s: string, start: nat, ids: seq<string>)
    requires start <= |s|
    ensures Walk(s, start, ids) == ids + PairedPieces(Split(s[start..], Quote))
    decreases |s| - start, 1
  {
    if DquotsFrom(s, start).None? {
      PiecesNoPair(s, start, ids);
    } else {
      PiecesStep(s, start, DquotsFrom(s, start).value.0, DquotsFrom(s, start).value.1, ids);
    }
  }

  /** The base case of WalkArePairedPieces: no pair of quotes. */
  lemma PiecesNoPair(s: string, start: nat, ids: seq<string>)
    requires start <= |s| && DquotsFrom(s, start).None?
    ensures Walk(s, start, ids) == ids + PairedPieces(Split(s[start..], Quote))
  {
    assert PairedPieces(Split(s[start..], Quote)) == [] by {
      FindDquotsShift(s, start);
      FindDquotsSpec(s[start..]);
      SplitFewQuotes(s[start..]);
    }
    assert Walk(s, start, ids) == ids by { WalkNoPair(s, start, ids); }
    AppendNilRight(ids);
  }

  /** The step of WalkArePairedPieces at the first pair (a, b): the text
      between the quotes, then the walk after the closing quote. */
  lemma {:induction false} PiecesStep(s: string, start: nat, a: nat, b: nat, ids: seq<string>)
    requires start <= |s| && DquotsFrom(s, start) == Some((a, b))
    ensures Walk(s, start, ids) == ids + PairedPieces(Split(s[start..], Quote))
    decreases |s| - start, 0
  {
    var id := s[a + 1..b];
    var here := if |id| > 0 then [id] else [];
    var ids' := if |id| > 0 then ids + [id] else ids;
    IdsHere(ids, id, here, ids');
    var next: nat := b + 1;
    var pieces := PairedPieces(Split(s[start..], Quote));
    var after := PairedPieces(Split(s[next..], Quote));
    PiecesAtPair(s, start, a, b, id, here, next);
    WalkPair(s, start, a, b, id, ids, next, ids');
    if next < |s| {
      WalkArePairedPieces(s, next, ids');
    } else {
      NoPiecesAtEnd(s, next, after);
      AppendNilRight(ids');
    }
    Regroup(Walk(s, start, ids), ids, ids', here, after, pieces);
  }

  /** Adding the id when it is non-empty appends the one-or-none list `here`. */
  lemma IdsHere(ids: seq<string>, id: string, here: seq<string>, ids': seq<string>)
    requires here == (if |id| > 0 then [id] else []) && ids' == (if |id| > 0 then ids + [id] else ids)
    ensures ids' == ids + here
  {
    AppendNilRight(ids);
  }

  /** Nothing is paired after the end of the text. */
  lemma NoPiecesAtEnd(s: string, next: nat, after: seq<string>)
    requires next == |s| && after == PairedPieces(Split(s[next..], Quote))
    ensures after == []
  {
    assert s[next..] == [];
  }

  /** Regrouping the pieces of a walk. */
  lemma Regroup(w: seq<string>, ids: seq<string>, ids': seq<string>, here: seq<string>, after: seq<string>,
                 pieces: seq<string>)
    requires ids' == ids + here && w == ids' + after && pieces == here + after
    ensures w == ids + pieces
  {
  }

  /** Without a pair of quotes from `start` on, the walk stops. */
  lemma WalkNoPair(s: string, start: nat, ids: seq<string>)
    requires start <= |s| && DquotsFrom(s, start).None?
    ensures Walk(s, start, ids) == ids
  {
  }

  /** One unfolding of the walk at the pair (a, b) found from `start`. */
  lemma WalkPair(s: string, start: nat, a: nat, b: nat, id: string, ids: seq<string>, next: nat, ids': seq<string>)
    requires start <= |s| && DquotsFrom(s, start) == Some((a, b)) && id == s[a + 1..b] && next == b + 1
    requires ids' == if |id| > 0 then ids + [id] else ids
    ensures next >= |s| ==> Walk(s, start, ids) == ids'
    ensures next < |s| ==> Walk(s, start, ids) == Walk(s, next, ids')
  {
  }

  /** At the pair (a, b) found from `start`, the paired pieces of the rest of
      the text begin with the text between the quotes, if non-empty, and
      continue with the paired pieces after the closing quote. */
  lemma PiecesAtPair(s: string, start: nat, a: nat, b: nat, id: string, here: seq<string>, next: nat)
    requires start <= |s| && DquotsFrom(s, start) == Some((a, b))
    requires id == s[a + 1..b] && here == (if |id| > 0 then [id] else []) && next == b + 1
    ensures PairedPieces(Split(s[start..], Quote)) == here + PairedPieces(Split(s[next..], Quote))
  {
    DquotsFromFirst(s, start);
    var t := s[start..];
    var a', b' := a - start, b - start;
    assert t[a'] == s[a] && t[b'] == s[b];
    assert t[a' + 1..b'] == id;
    assert t[b' + 1..] == s[next..];
    var rest := Split(s[next..], Quote);
    SplitAtPair(t, a', b', id, rest);
    var ps := Split(t, Quote);
    assert ps[2..] == rest;
  }

  lemma AppendAssoc(x: seq<string>, y: seq<string>, z: seq<string>)
    ensures (x + y) + z == x + (y + z)
  {
  }

  lemma AppendNilRight(x: seq<string>)
    ensures x + [] == x
  {
  }

  /** The ids of a whole text, against the reference definition. */
  lemma QuotedIdsArePairedPieces(s: string)
    ensures QuotedIds(s) == PairedPieces(Split(s, Quote))
  {
    WalkArePairedPieces(s, 0, []);
    assert s[0..] == s;
  }

  // ---------------------------------------------------------------------------
  // Line scanners
  // ---------------------------------------------------------------------------

  /** The trimmed text between the end of the first "package" and the first
      ";", when that ";" does not come before the end of the marker. */
  function PackageOf(line: string): Option<string> {
    match Find(line, "package")
    case None => None
    case Some(p) =>
      match Find(line, ";")
      case None => None
      case Some(e) => if e < p + 7 then None else Some(Trim(line[p + 7..e]))
  }

  /** A line has a package exactly when its first "package" ends no later
      than its first ";", and the package is the trimmed text in between. */
  lemma PackageOfSpec(line: string)
    ensures PackageOf(line).Some? <==>
              exists p: nat, e: nat :: FirstAt(line, "package", p) && FirstAt(line, ";", e) && p + 7 <= e
    ensures forall p: nat, e: nat :: FirstAt(line, "package", p) && FirstAt(line, ";", e) && p + 7 <= e ==>
              PackageOf(line) == Some(Trim(line[p + 7..e]))
  {
    FindIsFirstAt(line, "package");
    FindIsFirstAt(line, ";");
    if PackageOf(line).Some? {
      var p, e := Find(line, "package").value, Find(line, ";").value;
      assert FirstAt(line, "package", p) && FirstAt(line, ";", e) && p + 7 <= e;
    }
    forall p: nat, e: nat | FirstAt(line, "package", p) && FirstAt(line, ";", e) && p + 7 <= e
      ensures PackageOf(line) == Some(Trim(line[p + 7..e]))
    {
      assert Find(line, "package") == Some(p) && Find(line, ";") == Some(e);
    }
  }

  /** `java_package_find`: sets `out` to the line's package and succeeds, or
      fails and leaves `out` as it was. */
  method JavaPackageFind(line: string, out: Option<string>) returns (r: Option<()>, outAfter: Option<string>)
    ensures r.Some? <==> PackageOf(line).Some?
    ensures outAfter == if r.Some? then PackageOf(line) else out
  {
    var marker := "package";
    var p := Find(line, marker);
    if p.None? {
      return None, out;
    }
    var start := p.value + |marker|;
    var e := Find(line, ";");
    if e.None? {
      return None, out;
    }
    var end := e.value;
    if end < start {
      return None, out;
    }
    var package := Trim(line[start..end]);
    return Some(()), Some(package);
  }

  /** The token of `line` from `from` on: white space up to `s`, then
      non-white-space up to `e`, followed by white space or the end. */
  predicate TokenAt(line: string, from: nat, s: nat, e: nat) {
    && from <= s < e <= |line|
    && (forall i :: from <= i < s ==> IsWs(line[i]))
    && (forall i :: s <= i < e ==> !IsWs(line[i]))
    && (e < |line| ==> IsWs(line[e]))
  }

  /** The first index at or after `i` whose byte is not white space, or the
      length of the line. */
  function SkipWs(line: string, i: nat): (k: nat)
    requires i <= |line|
    ensures i <= k <= |line|
    ensures forall j :: i <= j < k ==> IsWs(line[j])
    ensures k < |line| ==> !IsWs(line[k])
    decreases |line| - i
  {
    if i == |line| || !IsWs(line[i]) then i else SkipWs(line, i + 1)
  }

  /** The first index at or after `i` whose byte is white space, or the
      length of the line. */
  function SkipToken(line: string, i: nat): (k: nat)
    requires i <= |line|
    ensures i <= k <= |line|
    ensures forall j :: i <= j < k ==> !IsWs(line[j])
    ensures k < |line| ==> IsWs(line[k])
    decreases |line| - i
  {
    if i == |line| || IsWs(line[i]) then i else SkipToken(line, i + 1)
  }

  /** The class name on a line: after the first "class", the first token
      that `first_ws` delimits, trimmed. None when the line has no "class"
      or only white space after it. */
  function ClassnameOf(line: string): Option<string> {
    match Find(line, "class")
    case None => None
    case Some(p) =>
      var s := SkipWs(line, p + 5);
      if s == |line| then None else Some(Trim(line[s..SkipToken(line, s)]))
  }

  /** A line has a class name exactly when something other than white space
      follows its first "class"; the name is the first token after it,
      trimmed. */
  lemma ClassnameOfSpec(line: string)
    ensures ClassnameOf(line).Some? <==>
              exists p: nat, i :: FirstAt(line, "class", p) && p + 5 <= i < |line| && !IsWs(line[i])
    ensures ClassnameOf(line).Some? ==>
              exists p: nat, s: nat, e: nat :: FirstAt(line, "class", p) && TokenAt(line, p + 5, s, e) &&
                                               ClassnameOf(line).value == Trim(line[s..e])
  {
    FindIsFirstAt(line, "class");
    if Find(line, "class").Some? {
      var p := Find(line, "class").value;
      assert FirstAt(line, "class", p);
      var s := SkipWs(line, p + 5);
      if s < |line| {
        var e := SkipToken(line, s);
        assert TokenAt(line, p + 5, s, e);
        ClassnameAt(line, p, s, e, Trim(line[s..e]));
      }
    }
  }

  /** A class name never holds any of " \t\n\r". */
  lemma ClassnameHasNoWs(line: string)
    ensures ClassnameOf(line).Some? ==> forall i :: 0 <= i < |ClassnameOf(line).value| ==> !IsWs(ClassnameOf(line).value[i])
  {
    if ClassnameOf(line).Some? {
      var p := Find(line, "class").value;
      var s := SkipWs(line, p + 5);
      var e := SkipToken(line, s);
      TrimmedTokenHasNoWs(line[s..e], ClassnameOf(line).value);
    }
  }

  /** The token scan stops only at " \t\n\r" while `trim` also strips the
      vertical tab and the form feed, so a token made of those alone gives
      an empty class name. */
  lemma ClassnameOfVerticalTab()
    ensures ClassnameOf("class " + [11 as char]) == Some("")
  {
    var line := "class " + [11 as char];
    assert OccursAt(line, "class", 0);
    FindIsFirstAt(line, "class");
    assert SkipWs(line, 5) == 6;
    assert SkipToken(line, 6) == 7;
    assert line[6..7] == [11 as char];
    assert TrimFrom(line[6..7], 0) == 1;
  }

  /** `java_classname_find`: sets `out` to the line's class name and
      succeeds, or fails and leaves `out` as it was. */
  method JavaClassnameFind(line: string, out: Option<string>) returns (r: Option<()>, outAfter: Option<string>)
    ensures r.Some? <==> ClassnameOf(line).Some?
    ensures outAfter == if r.Some? then ClassnameOf(line) else out
  {
    var marker := "class";
    var p := Find(line, marker);
    if p.None? {
      return None, out;
    }
    var start: nat := p.value + |marker|;
    assert start == p.value + 5 && start <= |line| by { assert OccursAt(line, marker, p.value); }
    var skip := FirstNonWs(line[start..]);
    if skip.None? {
      SkipWsOfTail(line, start, |line| - start);
      assert ClassnameOf(line).None?;
      return None, out;
    }
    var first: nat := skip.value + start;
    SkipWsOfTail(line, start, skip.value);
    var len := FirstWs(line[first..]);
    var end: nat := len.value + first;
    SkipTokenOfTail(line, first, len.value);
    // The source's `end < start` guard cannot fire: `first_ws` returns an
    // offset, so `end >= start`.
    var classname := Trim(line[first..end]);
    ClassnameAt(line, p.value, first, end, classname);
    return Some(()), Some(classname);
  }

  /** Trimming a token free of white space leaves it free of white space. */
  lemma TrimmedTokenHasNoWs(token: string, name: string)
    requires forall j :: 0 <= j < |token| ==> !IsWs(token[j])
    requires name == Trim(token)
    ensures forall i :: 0 <= i < |name| ==> !IsWs(name[i])
  {
    forall i | 0 <= i < |name| ensures !IsWs(name[i]) {
      assert name[i] == token[TrimFrom(token, 0) + i];
    }
  }

  /** The class name, once the first "class" and the token after it are
      located. */
  lemma ClassnameAt(line: string, p: nat, first: nat, end: nat, name: string)
    requires Find(line, "class") == Some(p) && p + 5 <= |line|
    requires first == SkipWs(line, p + 5) && first < |line|
    requires end == SkipToken(line, first) && name == Trim(line[first..end])
    ensures ClassnameOf(line) == Some(name)
  {
  }

  /** `first_non_ws` run on the tail from `i` reports `off` exactly when
      SkipWs from `i` stops at `i + off`. */
  lemma SkipWsOfTail(line: string, i: nat, off: nat)
    requires i + off <= |line|
    requires forall j :: 0 <= j < off ==> IsWs(line[i..][j])
    requires i + off < |line| ==> !IsWs(line[i..][off])
    ensures SkipWs(line, i) == i + off
  {
    forall j | i <= j < i + off ensures IsWs(line[j]) {
      assert line[j] == line[i..][j - i];
    }
    if i + off < |line| {
      assert line[i + off] == line[i..][off];
    }
  }

  /** `first_ws` run on the tail from `i` reports `len` exactly when
      SkipToken from `i` stops at `i + len`. */
  lemma SkipTokenOfTail(line: string, i: nat, len: nat)
    requires i + len <= |line|
    requires forall j :: 0 <= j < len ==> !IsWs(line[i..][j])
    requires i + len < |line| ==> IsWs(line[i..][len])
    ensures SkipToken(line, i) == i + len
  {
    forall j | i <= j < i + len ensures !IsWs(line[j]) {
      assert line[j] == line[i..][j - i];
    }
    if i + len < |line| {
      assert line[i + len] == line[i..][len];
    }
  }

  /** `java_comment_ids`: ids quoted after the comment marker
      "VSC! BLOCK_ID", when something follows the marker. */
  function JavaCommentIds(line: string): (r: Option<seq<string>>)
    ensures r.Some? <==> Contains(line, "VSC! BLOCK_ID") && Find(line, "VSC! BLOCK_ID").value + 13 < |line|
    ensures r.Some? ==> r.value == QuotedIds(line[Find(line, "VSC! BLOCK_ID").value + 13..])
  {
    var marker := "VSC! BLOCK_ID";
    if !Contains(line, marker) then None
    else
      var beg := Find(line, marker).value + |marker|;
      if beg >= |line| then None else Some(QuotedIds(line[beg..]))
  }

  /** `java_field_ids`: on a line naming "VSC_BLOCK_IDS", the ids quoted
      between the first "{" and the first "}", when that "}" comes at least
      two bytes after the "{". */
  function JavaFieldIds(line: string): (r: Option<seq<string>>)
    ensures r.Some? <==> (Contains(line, "VSC_BLOCK_IDS") && Contains(line, "{") && Contains(line, "}") &&
                          Find(line, "{").value + 2 <= Find(line, "}").value)
    ensures r.Some? ==> (Find(line, "}").value <= |line| &&
                         r.value == QuotedIds(line[Find(line, "{").value..Find(line, "}").value]))
  {
    if !Contains(line, "VSC_BLOCK_IDS") then None
    else
      match Find(line, "{")
      case None => None
      case Some(beg) =>
        match Find(line, "}")
        case None => None
        case Some(end) =>
          if end < beg || end - beg <= 1 then None else Some(QuotedIds(line[beg..end]))
  }

  /** `java_field_id`: on a line naming "VSC_BLOCK_ID" but not "VSC_BLOCK_IDS",
      the ids quoted from the first "=" on. */
  function JavaFieldId(line: string): (r: Option<seq<string>>)
    ensures r.Some? <==> Contains(line, "VSC_BLOCK_ID") && !Contains(line, "VSC_BLOCK_IDS") && Contains(line, "=")
    ensures r.Some? ==> Find(line, "=").value <= |line| && r.value == QuotedIds(line[Find(line, "=").value..])
  {
    if !Contains(line, "VSC_BLOCK_ID") || Contains(line, "VSC_BLOCK_IDS") then None
    else
      match Find(line, "=")
      case None => None
      case Some(beg) => Some(QuotedIds(line[beg..]))
  }

  /** The two field processors never both yield ids on the same line, and
      every id any processor yields is non-empty and free of quotes. */
  lemma FieldProcessorsExclusive(line: string)
    ensures !(JavaFieldId(line).Some? && JavaFieldIds(line).Some?)
    ensures forall k :: 0 <= k < |LineIds(line)| ==> |LineIds(line)[k]| > 0 && Quote !in LineIds(line)[k]
  {
    var fieldIds := JavaFieldIds(line).UnwrapOr([]);
    var fieldId := JavaFieldId(line).UnwrapOr([]);
    var commentIds := JavaCommentIds(line).UnwrapOr([]);
    if JavaFieldIds(line).Some? {
      QuotedIdsWellFormed(line[Find(line, "{").value..Find(line, "}").value]);
    }
    if JavaFieldId(line).Some? {
      QuotedIdsWellFormed(line[Find(line, "=").value..]);
    }
    if JavaCommentIds(line).Some? {
      QuotedIdsWellFormed(line[Find(line, "VSC! BLOCK_ID").value + 13..]);
    }
    assert LineIds(line) == fieldIds + fieldId + commentIds;
  }

  /** The ids a line contributes: the field-list ids, then the single-field
      ids, then the comment ids, in the order the processors are listed. */
  function LineIds(line: string): seq<string> {
    JavaFieldIds(line).UnwrapOr([]) + JavaFieldId(line).UnwrapOr([]) + JavaCommentIds(line).UnwrapOr([])
  }

  // ---------------------------------------------------------------------------
  // The line-by-line scan of a Java file
  // ---------------------------------------------------------------------------

  /** What the scan of a Java file finds. */
  datatype JavaInfo = JavaInfo(package: string, classname: string, ids: seq<string>)

  const NoPackage: string := "Unable to find package from java file"
  const NoClassname: string := "Unable to find classname from java file"

  /** The first line on which `find` succeeds, and what it finds there,
      defined line by line as the scan proceeds. */
  function FirstOf(lines: seq<string>, find: string -> Option<string>): Option<string>
    decreases |lines|
  {
    if lines == [] then None
    else
      var before := FirstOf(lines[..|lines| - 1], find);
      if before.Some? then before else find(lines[|lines| - 1])
  }

  /** FirstOf finds something iff some line has it, and then it is what the
      earliest such line has. */
  lemma {:induction false} FirstOfIsEarliest(lines: seq<string>, find: string -> Option<string>)
    ensures FirstOf(lines, find).Some? <==> exists i :: 0 <= i < |lines| && find(lines[i]).Some?
    ensures FirstOf(lines, find).Some? ==>
              exists i :: 0 <= i < |lines| && find(lines[i]) == FirstOf(lines, find) &&
                          forall j :: 0 <= j < i ==> find(lines[j]).None?
    decreases |lines|
  {
    if lines != [] {
      var init := lines[..|lines| - 1];
      FirstOfIsEarliest(init, find);
      assert forall i :: 0 <= i < |init| ==> init[i] == lines[i];
    }
  }

  /** All the ids of the lines, line by line. */
  function AllIds(lines: seq<string>): (ids: seq<string>)
    ensures forall k :: 0 <= k < |ids| ==> |ids[k]| > 0 && Quote !in ids[k]
    decreases |lines|
  {
    if lines == [] then []
    else
      var last := lines[|lines| - 1];
      FieldProcessorsExclusive(last);
      AllIds(lines[..|lines| - 1]) + LineIds(last)
  }

  /** The scan loop of `process_java_file`: the package from the first line
      that has one, the class name from the first line that has one, and the
      ids of every line in order; a missing package or class name is an
      error, the package checked first. */
  method ScanJavaLines(lines: seq<string>) returns (r: Result<JavaInfo, string>)
    ensures FirstOf(lines, PackageOf).None? ==> r == Failure(NoPackage)
    ensures FirstOf(lines, PackageOf).Some? && FirstOf(lines, ClassnameOf).None? ==> r == Failure(NoClassname)
    ensures FirstOf(lines, PackageOf).Some? && FirstOf(lines, ClassnameOf).Some? ==>
              r == Success(JavaInfo(FirstOf(lines, PackageOf).value, FirstOf(lines, ClassnameOf).value, AllIds(lines)))
  {
    var ids: seq<string> := [];
    var package: Option<string> := None;
    var classname: Option<string> := None;
    for k := 0 to |lines|
      invariant package == FirstOf(lines[..k], PackageOf)
      invariant classname == FirstOf(lines[..k], ClassnameOf)
      invariant ids == AllIds(lines[..k])
    {
      var line := lines[k];
      FirstOfStep(lines, k, PackageOf);
      FirstOfStep(lines, k, ClassnameOf);
      AllIdsStep(lines, k);
      if package.None? {
        var found, p := JavaPackageFind(line, package);
        package := p;
      }
      if classname.None? {
        var found, c := JavaClassnameFind(line, classname);
        classname := c;
      }
      ghost var before := ids;
      var fieldIds := JavaFieldIds(line);
      if fieldIds.Some? {
        ids := ids + fieldIds.value;
      }
      var fieldId := JavaFieldId(line);
      if fieldId.Some? {
        ids := ids + fieldId.value;
      }
      var commentIds := JavaCommentIds(line);
      if commentIds.Some? {
        ids := ids + commentIds.value;
      }
      AppendOptions(before, fieldIds, fieldId, commentIds, ids);
    }
    assert lines[..|lines|] == lines;
    if package.None? {
      return Failure(NoPackage);
    }
    if classname.None? {
      return Failure(NoClassname);
    }
    return Success(JavaInfo(package.value, classname.value, ids));
  }

  // ---------------------------------------------------------------------------
  // Package rewrite
  // ---------------------------------------------------------------------------

  /** `package_into_vec`: the parts of a package name between the periods,
      pushed one by one, so the last part ends up last. */
  method PackageIntoVec(package: string) returns (stack: seq<string>)
    ensures stack == Split(package, '.')
  {
    stack := [];
    var parts := Split(package, '.');
    for k := 0 to |parts|
      invariant stack == parts[..k]
    {
      stack := stack + [parts[k]];
    }
  }

  predicate StartsWith(s: string, prefix: string) {
    prefix <= s
  }

  /** The parts of the rewritten package, in package order: a last part that
      starts with "block" is dropped and "blockshape" is appended. */
  function RewriteParts(parts: seq<string>): (r: seq<string>)
    ensures |r| > 0 && r[|r| - 1] == "blockshape"
    ensures |parts| > 0 && StartsWith(parts[|parts| - 1], "block") ==> r == parts[..|parts| - 1] + ["blockshape"]
    ensures !(|parts| > 0 && StartsWith(parts[|parts| - 1], "block")) ==> r == parts + ["blockshape"]
  {
    var kept := if |parts| > 0 && StartsWith(parts[|parts| - 1], "block") then parts[..|parts| - 1] else parts;
    kept + ["blockshape"]
  }

  function Reverse(xs: seq<string>): (r: seq<string>)
    ensures |r| == |xs| && forall k :: 0 <= k < |xs| ==> r[k] == xs[|xs| - 1 - k]
  {
    if xs == [] then [] else Reverse(xs[1..]) + [xs[0]]
  }

  /** The source's fold: a part is appended directly while the accumulator is
      still empty, and after a "." otherwise. */
  function FoldDotted(acc: string, parts: seq<string>): (r: string)
    ensures acc <= r
    ensures parts == [] ==> r == acc
    decreases |parts|
  {
    if parts == [] then acc
    else FoldDotted(if acc == [] then acc + parts[0] else acc + "." + parts[0], parts[1..])
  }

  /** Once the accumulator is non-empty the fold is a plain join; so a fold
      whose first part is non-empty is the join of the parts with ".". */
  lemma {:induction false} FoldDottedIsJoin(acc: string, parts: seq<string>)
    requires acc != [] || (|parts| > 0 && parts[0] != [])
    ensures parts != [] ==> FoldDotted(acc, parts) == (if acc == [] then "" else acc + ".") + Join(parts, ".")
    ensures parts == [] ==> FoldDotted(acc, parts) == acc
    decreases |parts|
  {
    if parts != [] {
      var prefix := if acc == [] then "" else acc + ".";
      var next := prefix + parts[0];
      assert FoldDotted(acc, parts) == FoldDotted(next, parts[1..]);
      FoldDottedIsJoin(next, parts[1..]);
      if |parts| > 1 {
        DottedStep(prefix, parts[0], parts[1..], parts);
      }
    }
  }

  /** One fold step in join form: the prefix and the first part, then "."
      and the join of the rest, is the prefix and the join of all parts. */
  lemma DottedStep(prefix: string, first: string, rest: seq<string>, parts: seq<string>)
    requires |rest| > 0 && parts == [first] + rest
    ensures (prefix + first) + "." + Join(rest, ".") == prefix + Join(parts, ".")
  {
    JoinCons(first, rest, ".", parts);
  }

  /** One more line: the first find stays if there was one, else it is
      what the new line gives. */
  lemma FirstOfStep(lines: seq<string>, k: nat, find: string -> Option<string>)
    requires k < |lines|
    ensures FirstOf(lines[..k + 1], find) ==
            if FirstOf(lines[..k], find).Some? then FirstOf(lines[..k], find) else find(lines[k])
  {
    assert lines[..k + 1][..k] == lines[..k];
  }

  /** One more line: its ids come after those of the lines before. */
  lemma AllIdsStep(lines: seq<string>, k: nat)
    requires k < |lines|
    ensures AllIds(lines[..k + 1]) == AllIds(lines[..k]) + LineIds(lines[k])
  {
    assert lines[..k + 1][..k] == lines[..k];
  }

  /** Appending the ids of each processor that succeeds, one after the other,
      appends them all at once. */
  lemma AppendOptions(before: seq<string>, x: Option<seq<string>>, y: Option<seq<string>>,
                      z: Option<seq<string>>, after: seq<string>)
    requires after == (if z.Some? then (if y.Some? then (if x.Some? then before + x.value else before) + y.value
                                        else (if x.Some? then before + x.value else before)) + z.value
                       else (if y.Some? then (if x.Some? then before + x.value else before) + y.value
                             else (if x.Some? then before + x.value else before)))
    ensures after == before + (x.UnwrapOr([]) + y.UnwrapOr([]) + z.UnwrapOr([]))
  {
    var a := x.UnwrapOr([]);
    var b := y.UnwrapOr([]);
    var c := z.UnwrapOr([]);
    assert after == before + a + b + c;
    AppendAssoc(before, a, b);
    AppendAssoc(before, a + b, c);
  }

  /** The package rewrite as written (lines 258-272 of scan.rs): the parts
      are joined in REVERSE order. */
  method RewritePackageAsWritten(package: string) returns (r: string)
    ensures r == Join(Reverse(RewriteParts(Split(package, '.'))), ".")
  {
    var parts := PackageIntoVec(package);
    ghost var original := parts;
    if |parts| > 0 && StartsWith(parts[|parts| - 1], "block") {
      parts := parts[..|parts| - 1];
    }
    parts := parts + ["blockshape"];
    assert parts == RewriteParts(original);
    var acc := "";
    var k := |parts|;
    assert parts[..k] == parts;
    while k > 0
      invariant 0 <= k <= |parts|
      invariant FoldDotted(acc, Reverse(parts[..k])) == FoldDotted("", Reverse(parts))
    {
      k := k - 1;
      ReversePrefix(parts, k);
      acc := if acc == [] then acc + parts[k] else acc + "." + parts[k];
    }
    FoldDottedIsJoin("", Reverse(parts));
    r := acc;
  }

  /** Reversing one more element of a prefix puts that element first. */
  lemma ReversePrefix(xs: seq<string>, k: nat)
    requires k < |xs|
    ensures Reverse(xs[..k + 1]) == [xs[k]] + Reverse(xs[..k])
  {
  }

  /** Splitting the as-written result gives the intended parts reversed. */
  lemma RewriteAsWrittenReverses(package: string)
    ensures Split(Join(Reverse(RewriteParts(Split(package, '.'))), "."), '.') ==
            Reverse(Split(BlockshapePackage(package), '.'))
  {
    var parts := RewriteParts(Split(package, '.'));
    RewritePartsFree(package);
    SplitJoin(Reverse(parts), '.');
  }

  /** So the as-written rewrite differs from the intended one whenever the
      rewritten parts are two or more and do not start with "blockshape":
      "com.example.block" gives "blockshape.example.com", not
      "com.example.blockshape", and "com" gives "blockshape.com", not
      "com.blockshape". */
  lemma RewriteAsWrittenDiffers(package: string)
    requires |RewriteParts(Split(package, '.'))| >= 2
    requires RewriteParts(Split(package, '.'))[0] != "blockshape"
    ensures Join(Reverse(RewriteParts(Split(package, '.'))), ".") != BlockshapePackage(package)
  {
    var parts := RewriteParts(Split(package, '.'));
    RewriteAsWrittenReverses(package);
    assert Reverse(parts)[0] == "blockshape";
  }

  /** The rewrite as intended: the package of the sibling "blockshape"
      directory, parts in package order. Splitting it again gives the
      rewritten parts, so it ends in "blockshape" and keeps every other part
      of the original in place. */
  function BlockshapePackage(package: string): (r: string)
    ensures Split(r, '.') == RewriteParts(Split(package, '.'))
  {
    var parts := RewriteParts(Split(package, '.'));
    RewritePartsFree(package);
    SplitJoin(parts, '.');
    Join(parts, ".")
  }

  /** No rewritten part holds a period. */
  lemma RewritePartsFree(package: string)
    ensures forall k :: 0 <= k < |RewriteParts(Split(package, '.'))| ==> '.' !in RewriteParts(Split(package, '.'))[k]
  {
    SplitPiecesFree(package, '.');
    assert '.' !in "blockshape";
  }

  /** Splitting a join of separator-free parts gives the parts back. */
  lemma {:induction false} SplitJoin(parts: seq<string>, sep: char)
    requires |parts| > 0
    requires forall k :: 0 <= k < |parts| ==> sep !in parts[k]
    ensures Split(Join(parts, [sep]), sep) == parts
    decreases |parts|
  {
    if |parts| > 1 {
      SplitJoin(parts[1..], sep);
      SplitCons(parts[0], sep, Join(parts[1..], [sep]));
      assert parts == [parts[0]] + parts[1..];
    } else {
      assert Join(parts, [sep]) == parts[0];
    }
  }

  /** The package of the generated file: the Java file's own package when the
      target sits next to it, the blockshape package otherwise. */
  function TargetPackage(package: string, nextTo: bool): (r: string)
    ensures nextTo ==> r == package
    ensures !nextTo ==> Split(r, '.') == RewriteParts(Split(package, '.'))
  {
    if nextTo then package else BlockshapePackage(package)
  }

  // ---------------------------------------------------------------------------
  // Path filters
  // ---------------------------------------------------------------------------

  /** A path component: a named directory or file, or "..". */
  datatype Component = Normal(name: string) | ParentDir

  /** A path as its list of components. */
  type Path = seq<Component>

  /** `Path::parent`: the path without its last component; None for a path
      with no components (the empty path or a bare root). */
  function Parent(p: Path): Option<Path> {
    if |p| == 0 then None else Some(p[..|p| - 1])
  }

  /** `Path::file_name`: the last component when it is a name; None for ".."
      or for a path with no components. */
  function FileName(p: Path): Option<string> {
    if |p| == 0 then None
    else match p[|p| - 1]
      case Normal(n) => Some(n)
      case ParentDir => None
  }

  /** `filter_blockmodels_impl`: None when a `?` gives up on a missing parent
      or file name, otherwise whether the parent is "block" inside
      "models". */
  function FilterBlockmodelsImpl(path: Path): (r: Option<bool>)
    ensures r.None? <==>
      |path| < 2 || path[|path| - 2] == ParentDir ||
      (path[|path| - 2] == Normal("block") && (|path| < 3 || path[|path| - 3] == ParentDir))
    ensures r == Some(true) <==>
      |path| >= 3 && path[|path| - 2] == Normal("block") && path[|path| - 3] == Normal("models")
  {
    var parent :- Parent(path);
    var parentName :- FileName(parent);
    if parentName != "block" then Some(false)
    else
      // `parent.parent()?` cannot give up once `parent.file_name()` has not
      var grandparent := Parent(parent).value;
      var grandparentName :- FileName(grandparent);
      Some(grandparentName == "models")
  }

  /** `filter_blockmodels`: the file sits in a directory "block" inside a
      directory "models"; a missing parent or grandparent gives false. */
  function FilterBlockmodels(path: Path): (r: bool)
    ensures r <==> |path| >= 3 && path[|path| - 2] == Normal("block") && path[|path| - 3] == Normal("models")
  {
    FilterBlockmodelsImpl(path).UnwrapOr(false)
  }

  /** `filter_blockstates_impl`: None when a `?` gives up on a missing parent
      or file name, otherwise whether the parent is "blockstates". */
  function FilterBlockstatesImpl(path: Path): (r: Option<bool>)
    ensures r.None? <==> |path| < 2 || path[|path| - 2] == ParentDir
    ensures r == Some(true) <==> |path| >= 2 && path[|path| - 2] == Normal("blockstates")
  {
    var parent :- Parent(path);
    var parentName :- FileName(parent);
    Some(parentName == "blockstates")
  }

  /** `filter_blockstates`: the file sits in a directory "blockstates"; a
      missing parent gives false. */
  function FilterBlockstates(path: Path): (r: bool)
    ensures r <==> |path| >= 2 && path[|path| - 2] == Normal("blockstates")
  {
    FilterBlockstatesImpl(path).UnwrapOr(false)
  }

  // ---------------------------------------------------------------------------
  // The ids line of a block summary
  // ---------------------------------------------------------------------------

  /** The source's fold: ", " and the id appended for every id. */
  function FoldComma(acc: string, ids: seq<string>): string
    decreases |ids|
  {
    if ids == [] then acc else FoldComma(acc + ", " + ids[0], ids[1..])
  }

  /** The `ids:` line written by the `Display` of a block summary. */
  function IdsLine(ids: seq<string>): (r: string)
    ensures |r| >= 5 && r[..4] == "ids:" && r[|r| - 1] == '\n'
    ensures ids == [] ==> r == "ids:\n"
  {
    var joined := FoldComma("", ids);
    if |joined| >= 2 then "ids: " + joined[2..] + "\n" else "ids:\n"
  }

  /** Folding appends ", " and the join of the ids with ", ". */
  lemma {:induction false} FoldCommaIsJoin(acc: string, ids: seq<string>)
    requires ids != []
    ensures FoldComma(acc, ids) == acc + ", " + Join(ids, ", ")
    decreases |ids|
  {
    if |ids| > 1 {
      FoldCommaIsJoin(acc + ", " + ids[0], ids[1..]);
    }
  }

  /** With at least one id the line lists the ids joined with ", " after
      "ids: "; with none it is the bare "ids:". */
  lemma IdsLineSpec(ids: seq<string>)
    ensures ids != [] ==> IdsLine(ids) == "ids: " + Join(ids, ", ") + "\n"
    ensures ids == [] ==> IdsLine(ids) == "ids:\n"
  {
    if ids != [] {
      FoldCommaIsJoin("", ids);
      assert ("" + ", " + Join(ids, ", "))[2..] == Join(ids, ", ");
    }
  }
}
