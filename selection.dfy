/** Picking text out of a downloaded export archive: the first entry, or every
    entry, whose name the caller's predicate accepts, each trimmed. */
module Selection {
  import opened Outcomes

  /** The rejection of the single-entry selection. */
  const NotFoundMessage := "Could not find file in ZIP."

  /** One archive entry: its file name (the last segment of its path inside
      the archive, as the zip library's `name` gives it) and its contents
      read as text. Archives keep their entries in archive order. */
  datatype Entry = Entry(name: string, text: string)

  type Archive = seq<Entry>

  /** The code points `String.prototype.trim` removes: the ECMAScript
      WhiteSpace and LineTerminator characters. */
  predicate IsSpace(c: char) {
    || c == '\t' || c == '\n' || c == '\U{B}' || c == '\U{C}' || c == '\r' || c == ' '
    || c == '\U{A0}' || c == '\U{1680}' || '\U{2000}' <= c <= '\U{200A}'
    || c == '\U{2028}' || c == '\U{2029}' || c == '\U{202F}' || c == '\U{205F}'
    || c == '\U{3000}' || c == '\U{FEFF}'
  }

  /** Drops the leading white space (TrimStartSpec says what is left). */
  function TrimStart(s: string): string {
    if s != [] && IsSpace(s[0]) then TrimStart(s[1..]) else s
  }

  /** What is left after TrimStart is a suffix of `s` that does not start with
      white space, and all that was dropped is white space. */
  lemma {:induction false} TrimStartSpec(s: string)
    ensures var r := TrimStart(s);
      && |r| <= |s| && r == s[|s| - |r|..]
      && (forall k :: 0 <= k < |s| - |r| ==> IsSpace(s[k]))
      && (r == [] || !IsSpace(r[0]))
  {
    if s != [] && IsSpace(s[0]) {
      TrimStartSpec(s[1..]);
      var r := TrimStart(s);
      assert forall k :: 1 <= k < |s| - |r| ==> s[1..][k - 1] == s[k];
    }
  }

  /** Drops the trailing white space (TrimEndSpec says what is left). */
  function TrimEnd(s: string): string {
    if s != [] && IsSpace(s[|s| - 1]) then TrimEnd(s[..|s| - 1]) else s
  }

  /** What is left after TrimEnd is a prefix of `s` that does not end with
      white space, and all that was dropped is white space. */
  lemma {:induction false} TrimEndSpec(s: string)
    ensures var r := TrimEnd(s);
      && |r| <= |s| && r == s[..|r|]
      && (forall k :: |r| <= k < |s| ==> IsSpace(s[k]))
      && (r == [] || !IsSpace(r[|r| - 1]))
  {
    if s != [] && IsSpace(s[|s| - 1]) {
      TrimEndSpec(s[..|s| - 1]);
    }
  }

  /** `s.trim()`: the text between the leading and the trailing white space. */
  function Trim(s: string): string {
    TrimEnd(TrimStart(s))
  }

  /** A trimmed text neither starts nor ends with white space, is no longer
      than the original, and is empty exactly when the original is all white
      space (TrimStartSpec and TrimEndSpec say which piece it is). */
  lemma TrimSpec(s: string)
    ensures var r := Trim(s);
      && (r == [] || (!IsSpace(r[0]) && !IsSpace(r[|r| - 1])))
      && (r == [] <==> forall k :: 0 <= k < |s| ==> IsSpace(s[k]))
      && |r| <= |s|
  {
    var t := TrimStart(s);
    TrimStartSpec(s);
    TrimEndSpec(t);
    assert forall k :: |s| - |t| <= k < |s| ==> s[k] == t[k - (|s| - |t|)];
  }

  /** Trimming twice is trimming once. */
  lemma TrimIdempotent(s: string)
    ensures Trim(Trim(s)) == Trim(s)
  {
    var r := Trim(s);
    TrimSpec(s);
    assert TrimStart(r) == r;
    assert TrimEnd(r) == r;
  }

  /** `s.endsWith(suffix)` (EndsWithSpec: `s` is some text followed by
      `suffix`). */
  predicate EndsWith(s: string, suffix: string) {
    |suffix| <= |s| && s[|s| - |suffix|..] == suffix
  }

  /** A string ends with `suffix` exactly when it is some text followed by
      `suffix`. */
  lemma EndsWithSpec(s: string, suffix: string)
    ensures EndsWith(s, suffix) <==> exists p :: s == p + suffix
  {
    if |suffix| <= |s| {
      assert s == s[..|s| - |suffix|] + s[|s| - |suffix|..];
    }
  }

  /** Entry `i` is the first one, in archive order, the predicate accepts. */
  predicate IsFirstMatch(entries: Archive, pred: Entry -> bool, i: nat) {
    i < |entries| && pred(entries[i]) && forall j :: 0 <= j < i ==> !pred(entries[j])
  }

  /** Index of the first entry the predicate accepts (`Array.prototype.find`
      keeps archive order), or None when it accepts none. */
  function FirstMatch(entries: Archive, pred: Entry -> bool): (r: Option<nat>)
    ensures r.Some? ==> IsFirstMatch(entries, pred, r.value)
    ensures r.None? ==> forall j :: 0 <= j < |entries| ==> !pred(entries[j])
  {
    if entries == [] then None
    else if pred(entries[0]) then Some(0)
    else match FirstMatch(entries[1..], pred)
      case None => None
      case Some(i) => Some(i + 1)
  }

  /** There is at most one first match. */
  lemma FirstMatchUnique(entries: Archive, pred: Entry -> bool, i: nat, i': nat)
    requires IsFirstMatch(entries, pred, i) && IsFirstMatch(entries, pred, i')
    ensures i == i'
  {
  }

  /** Every index moved up by one. */
  function Shift(s: seq<nat>): (r: seq<nat>)
    ensures |r| == |s|
    ensures forall k :: 0 <= k < |s| ==> r[k] == s[k] + 1
  {
    seq(|s|, k requires 0 <= k < |s| => s[k] + 1)
  }

  /** Indices of all entries the predicate accepts, in archive order
      (`Array.prototype.filter`); MatchIndicesSpec says what they are. */
  function MatchIndices(entries: Archive, pred: Entry -> bool): (r: seq<nat>)
    ensures forall k :: 0 <= k < |r| ==> r[k] < |entries|
  {
    if entries == [] then []
    else (if pred(entries[0]) then [0] else []) + Shift(MatchIndices(entries[1..], pred))
  }

  /** MatchIndices unfolded once: the tail's indices come one later. */
  lemma MatchIndicesTail(entries: Archive, pred: Entry -> bool, k: nat)
    requires entries != []
    requires k < |MatchIndices(entries[1..], pred)|
    ensures var head := if pred(entries[0]) then 1 else 0;
      && |MatchIndices(entries, pred)| == head + |MatchIndices(entries[1..], pred)|
      && MatchIndices(entries, pred)[head + k] == MatchIndices(entries[1..], pred)[k] + 1
      && entries[MatchIndices(entries, pred)[head + k]] == entries[1..][MatchIndices(entries[1..], pred)[k]]
  {
  }

  /** When no entry is accepted there are no match indices. */
  lemma {:induction false} MatchIndicesNone(entries: Archive, pred: Entry -> bool)
    requires forall i :: 0 <= i < |entries| ==> !pred(entries[i])
    ensures MatchIndices(entries, pred) == []
  {
    if entries != [] {
      assert forall i :: 0 <= i < |entries[1..]| ==> entries[1..][i] == entries[i + 1];
      MatchIndicesNone(entries[1..], pred);
    }
  }

  /** Every index of MatchIndices is that of an accepted entry. */
  lemma {:induction false} MatchIndicesSound(entries: Archive, pred: Entry -> bool)
    ensures forall k :: 0 <= k < |MatchIndices(entries, pred)| ==> pred(entries[MatchIndices(entries, pred)[k]])
  {
    if entries != [] {
      MatchIndicesSound(entries[1..], pred);
      forall k | 0 <= k < |MatchIndices(entries[1..], pred)| {
        MatchIndicesTail(entries, pred, k);
      }
    }
  }

  /** MatchIndices is strictly increasing: archive order, each entry once. */
  lemma {:induction false} MatchIndicesIncreasing(entries: Archive, pred: Entry -> bool)
    ensures forall k, l :: 0 <= k < l < |MatchIndices(entries, pred)| ==>
      MatchIndices(entries, pred)[k] < MatchIndices(entries, pred)[l]
  {
    if entries != [] {
      MatchIndicesIncreasing(entries[1..], pred);
      forall k | 0 <= k < |MatchIndices(entries[1..], pred)| {
        MatchIndicesTail(entries, pred, k);
      }
    }
  }

  /** Every accepted entry's index is in MatchIndices. */
  lemma {:induction false} MatchIndicesComplete(entries: Archive, pred: Entry -> bool, i: nat)
    requires i < |entries| && pred(entries[i])
    ensures i in MatchIndices(entries, pred)
  {
    var r := MatchIndices(entries, pred);
    if i == 0 {
      assert r[0] == 0;
    } else {
      assert entries[1..][i - 1] == entries[i];
      MatchIndicesComplete(entries[1..], pred, i - 1);
      var rest := MatchIndices(entries[1..], pred);
      var k :| 0 <= k < |rest| && rest[k] == i - 1;
      MatchIndicesTail(entries, pred, k);
      assert r[(if pred(entries[0]) then 1 else 0) + k] == i;
    }
  }

  /** The indices of MatchIndices are exactly those of the accepted entries,
      each once, in increasing order. */
  lemma {:induction false} MatchIndicesSpec(entries: Archive, pred: Entry -> bool)
    ensures var r := MatchIndices(entries, pred);
      && (forall k :: 0 <= k < |r| ==> pred(entries[r[k]]))
      && (forall k, l :: 0 <= k < l < |r| ==> r[k] < r[l])
      && (forall i :: 0 <= i < |entries| && pred(entries[i]) ==> i in r)
  {
    MatchIndicesSound(entries, pred);
    MatchIndicesIncreasing(entries, pred);
    forall i | 0 <= i < |entries| && pred(entries[i])
      ensures i in MatchIndices(entries, pred)
    {
      MatchIndicesComplete(entries, pred, i);
    }
  }

  /** `getFileString` once the archive is there: the trimmed text of the first
      entry the predicate accepts; rejected when none is accepted and also when
      that entry trims to the empty string, since `''` is falsy. */
  function FileString(entries: Archive, pred: Entry -> bool): (r: Settled<string>)
    ensures r.Resolved? || r == Rejected(Reason(NotFoundMessage))
    ensures (forall i :: 0 <= i < |entries| ==> !pred(entries[i])) ==> r == Rejected(Reason(NotFoundMessage))
    ensures forall i: nat :: IsFirstMatch(entries, pred, i) ==>
      r == if Trim(entries[i].text) == [] then Rejected(Reason(NotFoundMessage)) else Resolved(Trim(entries[i].text))
  {
    match FirstMatch(entries, pred)
    case None => Rejected(Reason(NotFoundMessage))
    case Some(i) =>
      assert forall i': nat :: IsFirstMatch(entries, pred, i') ==> i' == i by {
        forall i': nat | IsFirstMatch(entries, pred, i') ensures i' == i {
          FirstMatchUnique(entries, pred, i, i');
        }
      }
      var t := Trim(entries[i].text);
      if t == [] then Rejected(Reason(NotFoundMessage)) else Resolved(t)
  }

  /** `getAllFileString` once the archive is there: one trimmed text per
      accepted entry, in archive order. An empty list is truthy, so nothing
      accepted gives `[]` and never a rejection. */
  function AllFileStrings(entries: Archive, pred: Entry -> bool): (r: seq<string>)
    ensures |r| == |MatchIndices(entries, pred)|
    ensures forall k :: 0 <= k < |r| ==> r[k] == Trim(entries[MatchIndices(entries, pred)[k]].text)
  {
    if entries == [] then []
    else
      var rest := AllFileStrings(entries[1..], pred);
      var head := if pred(entries[0]) then [Trim(entries[0].text)] else [];
      AllFileStringsStep(entries, pred, (e: Entry) => Trim(e.text), rest);
      head + rest
  }

  /** The proof step of AllFileStrings, for any way `text` of reading an
      entry: given the tail's texts, prepending the head's text (when
      accepted) gives the texts of MatchIndices. */
  lemma AllFileStringsStep(entries: Archive, pred: Entry -> bool, text: Entry -> string, rest: seq<string>)
    requires entries != []
    requires |rest| == |MatchIndices(entries[1..], pred)|
    requires forall k :: 0 <= k < |rest| ==> rest[k] == text(entries[1..][MatchIndices(entries[1..], pred)[k]])
    ensures var r := (if pred(entries[0]) then [text(entries[0])] else []) + rest;
      && |r| == |MatchIndices(entries, pred)|
      && forall k :: 0 <= k < |r| ==> r[k] == text(entries[MatchIndices(entries, pred)[k]])
  {
  }

  /** There are no more matches than entries. */
  lemma {:induction false} MatchIndicesBound(entries: Archive, pred: Entry -> bool)
    ensures |MatchIndices(entries, pred)| <= |entries|
  {
    var r := MatchIndices(entries, pred);
    MatchIndicesSpec(entries, pred);
    var k := 0;
    while k < |r|
      invariant 0 <= k <= |r|
      invariant forall l :: 0 <= l < k ==> l <= r[l]
    {
      if k > 0 {
        assert r[k - 1] < r[k];
      }
      k := k + 1;
    }
    if |r| > 0 {
      assert |r| - 1 <= r[|r| - 1] < |entries|;
    }
  }

  /** The single and the multiple selection agree: the single one yields the
      first text of the multiple one unless that list is empty or its first
      text is empty, and then rejects. */
  lemma {:induction false} FirstOfAll(entries: Archive, pred: Entry -> bool)
    ensures var all := AllFileStrings(entries, pred);
      && |all| <= |entries|
      && FileString(entries, pred) ==
        if all == [] || all[0] == [] then Rejected(Reason(NotFoundMessage)) else Resolved(all[0])
  {
    MatchIndicesBound(entries, pred);
    MatchIndicesSpec(entries, pred);
    var idx := MatchIndices(entries, pred);
    if idx == [] {
      assert forall i :: 0 <= i < |entries| ==> !pred(entries[i]);
    } else {
      var i := idx[0];
      forall j | 0 <= j < i
        ensures !pred(entries[j])
      {
        assert pred(entries[j]) ==> j in idx;
      }
      assert IsFirstMatch(entries, pred, i);
    }
  }

  /** A weaker predicate never accepts more entries than a stronger one. */
  lemma {:induction false} MatchIndicesMonotone(entries: Archive, p: Entry -> bool, q: Entry -> bool)
    requires forall e :: p(e) ==> q(e)
    ensures |MatchIndices(entries, p)| <= |MatchIndices(entries, q)|
  {
    if entries != [] {
      MatchIndicesMonotone(entries[1..], p, q);
    }
  }

  /** The predicate of `getMdString` and `getAllMdString`. */
  predicate IsMd(e: Entry) {
    EndsWith(e.name, ".md")
  }

  /** The name suffix `getCsvString` looks for: `.csv` when only the current
      view is wanted (a truthy flag), `_all.csv` otherwise, absent included. */
  function CsvSuffix(onlyCurrentView: Option<bool>): (suffix: string)
    ensures EndsWith(suffix, ".csv")
    ensures onlyCurrentView == Some(true) ==> suffix == ".csv"
    ensures onlyCurrentView != Some(true) ==> suffix == "_all.csv"
  {
    if onlyCurrentView == Some(true) then ".csv" else "_all.csv"
  }

  /** The predicate of `getCsvString`. */
  predicate IsCsv(onlyCurrentView: Option<bool>, e: Entry)
    ensures IsCsv(onlyCurrentView, e) ==> EndsWith(e.name, ".csv")
    ensures onlyCurrentView == Some(true) ==> (IsCsv(onlyCurrentView, e) <==> EndsWith(e.name, ".csv"))
  {
    AllCsvIsCsv(e.name);
    EndsWith(e.name, CsvSuffix(onlyCurrentView))
  }

  /** `getMdString` once the archive is there. */
  function MdString(entries: Archive): (r: Settled<string>)
    ensures r.Resolved? ==> r.value != [] && exists i :: (
      && 0 <= i < |entries| && EndsWith(entries[i].name, ".md") && r.value == Trim(entries[i].text))
    ensures (forall i :: 0 <= i < |entries| ==> !EndsWith(entries[i].name, ".md")) ==> r == Rejected(Reason(NotFoundMessage))
    ensures r.Resolved? || r == Rejected(Reason(NotFoundMessage))
    ensures forall i: nat :: IsFirstMatch(entries, IsMd, i) ==>
      r == if Trim(entries[i].text) == [] then Rejected(Reason(NotFoundMessage)) else Resolved(Trim(entries[i].text))
  {
    FileString(entries, IsMd)
  }

  /** `getCsvString` once the archive is there. */
  function CsvString(entries: Archive, onlyCurrentView: Option<bool>): (r: Settled<string>)
    ensures r.Resolved? ==> r.value != [] && exists i :: (
      && 0 <= i < |entries| && EndsWith(entries[i].name, CsvSuffix(onlyCurrentView)) && r.value == Trim(entries[i].text))
    ensures (forall i :: 0 <= i < |entries| ==> !EndsWith(entries[i].name, ".csv")) ==> r == Rejected(Reason(NotFoundMessage))
    ensures (forall i :: 0 <= i < |entries| ==> !IsCsv(onlyCurrentView, entries[i])) ==> r == Rejected(Reason(NotFoundMessage))
    ensures r.Resolved? || r == Rejected(Reason(NotFoundMessage))
    ensures forall i: nat :: (
      && i < |entries| && IsCsv(onlyCurrentView, entries[i])
      && (forall j :: 0 <= j < i ==> !IsCsv(onlyCurrentView, entries[j]))) ==>
      r == if Trim(entries[i].text) == [] then Rejected(Reason(NotFoundMessage)) else Resolved(Trim(entries[i].text))
  {
    var pred := e => IsCsv(onlyCurrentView, e);
    assert forall i: nat :: (
      && i < |entries| && IsCsv(onlyCurrentView, entries[i])
      && (forall j :: 0 <= j < i ==> !IsCsv(onlyCurrentView, entries[j]))) ==> IsFirstMatch(entries, pred, i);
    var r := FileString(entries, pred);
    assert r.Resolved? ==> FirstMatch(entries, pred).Some? && IsFirstMatch(entries, pred, FirstMatch(entries, pred).value);
    r
  }

  /** `getAllMdString` once the archive is there. */
  function AllMdStrings(entries: Archive): (r: seq<string>)
    ensures |r| <= |entries|
    ensures forall k :: 0 <= k < |r| ==> exists i :: (
      && 0 <= i < |entries| && EndsWith(entries[i].name, ".md") && r[k] == Trim(entries[i].text))
    ensures (forall i :: 0 <= i < |entries| ==> !EndsWith(entries[i].name, ".md")) ==> r == []
    ensures |r| == |MatchIndices(entries, IsMd)|
    ensures forall k :: 0 <= k < |r| ==> r[k] == Trim(entries[MatchIndices(entries, IsMd)[k]].text)
  {
    var idx := MatchIndices(entries, IsMd);
    var r := AllFileStrings(entries, IsMd);
    MatchIndicesBound(entries, IsMd);
    MatchIndicesSound(entries, IsMd);
    assert forall k :: 0 <= k < |r| ==> IsMd(entries[idx[k]]) && r[k] == Trim(entries[idx[k]].text);
    assert |idx| > 0 ==> EndsWith(entries[idx[0]].name, ".md");
    r
  }

  /** A name ending with `_all.csv` ends with `.csv`. */
  lemma AllCsvIsCsv(name: string)
    ensures EndsWith(name, "_all.csv") ==> EndsWith(name, ".csv")
  {
    if EndsWith(name, "_all.csv") {
      assert name[|name| - 4..] == name[|name| - 8..][4..];
    }
  }

  /** No entry is picked by both the Markdown and the CSV selections. */
  lemma MdAndCsvDisjoint(e: Entry, onlyCurrentView: Option<bool>)
    ensures !(IsMd(e) && IsCsv(onlyCurrentView, e))
  {
    if IsMd(e) {
      assert e.name[|e.name| - 1] == 'd';
    }
  }

  /** Every `_all.csv` entry is also a `.csv` entry, so the current-view
      selection accepts at least the entries the all-views selection does. */
  lemma CsvViewsNested(entries: Archive)
    ensures |AllFileStrings(entries, e => IsCsv(Some(false), e))| <= |AllFileStrings(entries, e => IsCsv(Some(true), e))|
  {
    MatchIndicesMonotone(entries, e => IsCsv(Some(false), e), e => IsCsv(Some(true), e));
  }

  /** The Markdown entries of an archive holding a Markdown, a non-Markdown
      and a Markdown entry, in that order: the first and the third. */
  lemma MarkdownIndicesExample(a: Entry, b: Entry, c: Entry)
    requires IsMd(a) && !IsMd(b) && IsMd(c)
    ensures MatchIndices([a, b, c], IsMd) == [0, 2]
  {
    assert [a, b, c][1..] == [b, c] && [b, c][1..] == [c] && [c][1..] == [];
    assert Shift([]) == [] && Shift([0]) == [1] && Shift([1]) == [2];
    assert MatchIndices([c], IsMd) == [0];
    assert MatchIndices([b, c], IsMd) == [1];
    assert MatchIndices([a, b, c], IsMd) == [0] + Shift([1]);
  }

  /** On that archive the multiple selection yields both Markdown texts in
      archive order and the single one the first of them. */
  lemma SelectionExample(a: Entry, b: Entry, c: Entry)
    requires IsMd(a) && !IsMd(b) && IsMd(c)
    requires Trim(a.text) != []
    ensures AllMdStrings([a, b, c]) == [Trim(a.text), Trim(c.text)]
    ensures MdString([a, b, c]) == Resolved(Trim(a.text))
  {
    MarkdownIndicesExample(a, b, c);
    var all := AllFileStrings([a, b, c], IsMd);
    assert |all| == 2 && all[0] == Trim(a.text) && all[1] == Trim(c.text);
    FirstOfAll([a, b, c], IsMd);
  }

  /** A predicate no entry meets: the single selection rejects, the multiple
      one gives an empty list. */
  lemma NoMatchExample(entries: Archive, none: Entry -> bool)
    requires forall i :: 0 <= i < |entries| ==> !none(entries[i])
    ensures FileString(entries, none) == Rejected(Reason(NotFoundMessage))
    ensures AllFileStrings(entries, none) == []
  {
    MatchIndicesNone(entries, none);
  }
}
