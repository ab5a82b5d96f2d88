/**
 Resolver and bootstrap lists while autoconf is disabled: how they are parsed,
 when the placeholder makes them fail, and how resolvers are printed back.
 */
module Resolvers {
  import opened Wrappers
  import opened Text

  /** The autoconf placeholder. */
  const AUTO: string := "auto"

  datatype Error = AutoconfDisabled

  // ----- Parsing resolvers -----

  datatype Entry = Entry(domain: string, url: string)

  /** An element of the list cut at its first colon; elements without one are skipped. */
  function ParseEntry(s: string): Option<Entry> {
    var i := IndexOf(s, ':');
    if i == |s| then None else Some(Entry(Trim(s[..i]), Trim(s[i + 1..])))
  }

  function Bind(m: map<string, string>, s: string): map<string, string> {
    match ParseEntry(s)
    case None => m
    case Some(e) => m[e.domain := e.url]
  }

  /** The map a list stands for: elements are applied in order. */
  function Bindings(list: seq<string>): map<string, string> {
    if |list| == 0 then map[] else Bind(Bindings(list[..|list| - 1]), list[|list| - 1])
  }

  ghost predicate NamesAuto(m: map<string, string>) {
    exists d :: d in m && m[d] == AUTO
  }

  /** Visits the map in no particular order. */
  method HasPlaceholder(m: map<string, string>) returns (b: bool)
    ensures b == NamesAuto(m)
  {
    var unseen := m.Keys;
    while unseen != {}
      invariant unseen <= m.Keys
      invariant forall d :: d in m && d !in unseen ==> m[d] != AUTO
    {
      var d :| d in unseen;
      if m[d] == AUTO {
        return true;
      }
      unseen := unseen - {d};
    }
    return false;
  }

  method ExpandResolvers(list: seq<string>) returns (r: Result<map<string, string>, Error>)
    ensures r == if NamesAuto(Bindings(list)) then Failure(AutoconfDisabled) else Success(Bindings(list))
  {
    var m: map<string, string> := map[];
    for i := 0 to |list|
      invariant m == Bindings(list[..i])
    {
      assert list[..i + 1][..i] == list[..i];
      var cut := IndexOf(list[i], ':');
      if cut < |list[i]| {
        m := m[Trim(list[i][..cut]) := Trim(list[i][cut + 1..])];
      }
    }
    assert list[..|list|] == list;
    var placeholder := HasPlaceholder(m);
    if placeholder {
      return Failure(AutoconfDisabled);
    }
    return Success(m);
  }

  predicate Binds(s: string, d: string) {
    ParseEntry(s).Some? && ParseEntry(s).value.domain == d
  }

  /** `list[i]` binds `d` to `u`, and nothing after it binds `d`. */
  predicate LastBinding(list: seq<string>, i: nat, d: string, u: string) {
    && i < |list| && Binds(list[i], d) && ParseEntry(list[i]).value.url == u
    && forall j :: i < j < |list| ==> !Binds(list[j], d)
  }

  lemma LastBindingStep(list: seq<string>, i: nat, d: string, u: string)
    requires |list| > 0 && i < |list| - 1
    ensures LastBinding(list, i, d, u) <==>
            !Binds(list[|list| - 1], d) && LastBinding(list[..|list| - 1], i, d, u)
  {
    var init := list[..|list| - 1];
    assert forall j :: 0 <= j < |init| ==> init[j] == list[j];
  }

  ghost predicate HasLastBinding(list: seq<string>, d: string, u: string) {
    exists i: nat :: LastBinding(list, i, d, u)
  }

  lemma HasLastBindingStep(list: seq<string>, d: string, u: string)
    requires |list| > 0
    ensures var n := |list| - 1;
            HasLastBinding(list, d, u) <==>
            if Binds(list[n], d) then ParseEntry(list[n]).value.url == u else HasLastBinding(list[..n], d, u)
  {
    var n := |list| - 1;
    forall i: nat | i < n { LastBindingStep(list, i, d, u); }
    if Binds(list[n], d) {
      if ParseEntry(list[n]).value.url == u { assert LastBinding(list, n, d, u); }
    } else if HasLastBinding(list[..n], d, u) {
      var i: nat :| LastBinding(list[..n], i, d, u);
      assert LastBinding(list, i, d, u);
    }
  }

  predicate Maps(m: map<string, string>, d: string, u: string) {
    d in m && m[d] == u
  }

  lemma MapsStep(m: map<string, string>, s: string, d: string, u: string)
    ensures Maps(Bind(m, s), d, u) <==> if Binds(s, d) then ParseEntry(s).value.url == u else Maps(m, d, u)
  {
  }

  /** A domain maps to the URL of the last element that binds it. */
  lemma {:induction false} LastBindingWins(list: seq<string>, d: string, u: string)
    ensures Maps(Bindings(list), d, u) <==> HasLastBinding(list, d, u)
  {
    if |list| > 0 {
      var n := |list| - 1;
      HasLastBindingStep(list, d, u);
      MapsStep(Bindings(list[..n]), list[n], d, u);
      LastBindingWins(list[..n], d, u);
    }
  }

  /** A placeholder without a domain in front of it goes unnoticed. */
  lemma BarePlaceholderIsIgnored()
    ensures Bindings([AUTO]) == map[]
  {
    assert forall i :: 0 <= i < |AUTO| ==> AUTO[i] != ':';
    assert IndexOf(AUTO, ':') == |AUTO|;
    assert [AUTO][..0] == [];
  }

  predicate CanonicalKey(d: string) { Trimmed(d) && ':' !in d }

  lemma TrimStaysFree(s: string, c: char)
    requires c !in s
    ensures Trimmed(Trim(s)) && c !in Trim(s)
  {
    var i, j := TrimCuts(s);
  }

  /** `s` writes `d`, a colon and `u`, with any white space around the two. */
  ghost predicate Writes(s: string, d: string, u: string) {
    exists a, b, x, y :: WritesPadded(s, a, d, b, x, u, y)
  }

  predicate WritesPadded(s: string, a: string, d: string, b: string, x: string, u: string, y: string) {
    && AllSpace(a) && AllSpace(b) && AllSpace(x) && AllSpace(y)
    && CanonicalKey(d) && Trimmed(u)
    && s == (a + d + b) + [':'] + (x + u + y)
  }

  lemma SpaceHasNoColon(s: string)
    requires AllSpace(s)
    ensures ':' !in s
  {
    assert !IsSpace(':');
  }

  /** Any padding is trimmed off. */
  lemma PaddedEntryParses(s: string, a: string, d: string, b: string, x: string, u: string, y: string)
    requires WritesPadded(s, a, d, b, x, u, y)
    ensures ParseEntry(s) == Some(Entry(d, u))
  {
    SpaceHasNoColon(a);
    SpaceHasNoColon(b);
    var left, right := a + d + b, x + u + y;
    IndexOfFirst(left, right, ':');
    assert s[..|left|] == left && s[|left| + 1..] == right;
    TrimPadded(a, d, b);
    TrimPadded(x, u, y);
  }

  lemma TrimSplits(s: string) returns (a: string, b: string)
    ensures AllSpace(a) && AllSpace(b) && Trimmed(Trim(s)) && s == a + Trim(s) + b
  {
    var i, j := TrimCuts(s);
    a, b := s[..i], s[j..];
    assert s == s[..i] + s[i..j] + s[j..];
  }

  lemma ParsedEntryIsPadded(s: string)
    requires ParseEntry(s).Some?
    ensures Writes(s, ParseEntry(s).value.domain, ParseEntry(s).value.url)
  {
    var k := IndexOf(s, ':');
    var left, right := s[..k], s[k + 1..];
    CutAt(s, k);
    var a, b := TrimSplits(left);
    var x, y := TrimSplits(right);
    TrimStaysFree(left, ':');
    assert WritesPadded(s, a, Trim(left), b, x, Trim(right), y);
  }

  /** What an element of the list means: it binds a domain to a URL exactly when it writes them. */
  lemma ParseEntryIff(s: string, d: string, u: string)
    ensures ParseEntry(s) == Some(Entry(d, u)) <==> Writes(s, d, u)
    ensures ParseEntry(s).None? <==> ':' !in s
  {
    if ParseEntry(s).Some? { ParsedEntryIsPadded(s); }
    if Writes(s, d, u) {
      var a, b, x, y :| WritesPadded(s, a, d, b, x, u, y);
      PaddedEntryParses(s, a, d, b, x, u, y);
    }
    assert s == s[..|s|];
  }

  /** `list[i]` writes `u` for `d`, and nothing after it writes anything for `d`. */
  ghost predicate WritesLast(list: seq<string>, i: nat, d: string, u: string) {
    && i < |list| && Writes(list[i], d, u)
    && forall j, v :: i < j < |list| ==> !Writes(list[j], d, v)
  }

  lemma BindsIff(s: string, d: string)
    ensures Binds(s, d) <==> exists u :: Writes(s, d, u)
  {
    if Binds(s, d) { ParseEntryIff(s, d, ParseEntry(s).value.url); }
    if u :| Writes(s, d, u) { ParseEntryIff(s, d, u); }
  }

  lemma LastBindingIff(list: seq<string>, i: nat, d: string, u: string)
    ensures LastBinding(list, i, d, u) <==> WritesLast(list, i, d, u)
  {
    if i < |list| {
      ParseEntryIff(list[i], d, u);
      forall j | i < j < |list| ensures Binds(list[j], d) <==> exists v :: Writes(list[j], d, v) {
        BindsIff(list[j], d);
      }
    }
  }

  /** A domain maps to the URL that the last element to write one for it writes. */
  lemma LastWriteWins(list: seq<string>, d: string, u: string)
    ensures Maps(Bindings(list), d, u) <==> exists i: nat :: WritesLast(list, i, d, u)
  {
    LastBindingWins(list, d, u);
    forall i: nat { LastBindingIff(list, i, d, u); }
    if HasLastBinding(list, d, u) {
      var i: nat :| LastBinding(list, i, d, u);
      assert WritesLast(list, i, d, u);
    }
    if i: nat :| WritesLast(list, i, d, u) {
      assert LastBinding(list, i, d, u);
    }
  }

  /** Expansion fails exactly when the last URL written for some domain is the placeholder. */
  lemma FailsIff(list: seq<string>)
    ensures NamesAuto(Bindings(list)) <==> exists d, i: nat :: WritesLast(list, i, d, AUTO)
  {
    if NamesAuto(Bindings(list)) {
      var d :| d in Bindings(list) && Bindings(list)[d] == AUTO;
      assert Maps(Bindings(list), d, AUTO);
      LastWriteWins(list, d, AUTO);
    }
    if d, i: nat :| WritesLast(list, i, d, AUTO) {
      LastWriteWins(list, d, AUTO);
      assert Maps(Bindings(list), d, AUTO);
    }
  }

  /** The placeholder for a domain fails, with any white space after either. */
  lemma PlaceholderFails(b: string, x: string, y: string)
    requires AllSpace(b) && AllSpace(x) && AllSpace(y)
    ensures NamesAuto(Bindings([("eth." + b) + ":" + (x + "auto" + y)]))
  {
    var s := ("eth." + b) + ":" + (x + "auto" + y);
    assert "" + "eth." + b == "eth." + b;
    PaddedEntryParses(s, "", "eth.", b, x, "auto", y);
    assert [s][..0] == [];
    assert Maps(Bindings([s]), "eth.", AUTO);
  }

  /** The element the repository's own test uses. */
  lemma ShortPlaceholderFails()
    ensures NamesAuto(Bindings(["eth.:auto"]))
  {
    PlaceholderFails("", "", "");
    assert ("eth." + "") + ":" + ("" + "auto" + "") == "eth.:auto";
  }

  // ----- Printing and parsing back -----

  function PrintEntry(d: string, u: string): string { d + " : " + u }

  /** `order` lists the keys of `m`, each once. */
  ghost predicate Enumerates(order: seq<string>, m: map<string, string>) {
    && (forall d :: d in order <==> d in m)
    && (forall i, j :: 0 <= i < j < |order| ==> order[i] != order[j])
  }

  ghost function Printed(order: seq<string>, m: map<string, string>): seq<string>
    requires forall d :: d in order ==> d in m
  {
    seq(|order|, i requires 0 <= i < |order| => PrintEntry(order[i], m[order[i]]))
  }

  /** Keys are trimmed and free of colons, values are trimmed. */
  ghost predicate Canonical(m: map<string, string>) {
    forall d :: d in m ==> CanonicalKey(d) && Trimmed(m[d])
  }

  lemma {:induction false} BindingsAreCanonical(list: seq<string>)
    ensures Canonical(Bindings(list))
  {
    if |list| > 0 {
      var last := list[|list| - 1];
      BindingsAreCanonical(list[..|list| - 1]);
      var cut := IndexOf(last, ':');
      if cut < |last| {
        TrimStaysFree(last[..cut], ':');
        var i, j := TrimCuts(last[cut + 1..]);
      }
    }
  }

  lemma PrintedEntryParses(d: string, u: string)
    requires CanonicalKey(d) && Trimmed(u)
    ensures ParseEntry(PrintEntry(d, u)) == Some(Entry(d, u))
  {
    var s := PrintEntry(d, u);
    assert s == ("" + d + " ") + [':'] + (" " + u + "");
    PaddedEntryParses(s, "", d, " ", " ", u, "");
  }

  lemma SecondBindingWins(a: string, b: string, d: string, x: string, y: string)
    requires ParseEntry(a) == Some(Entry(d, x)) && ParseEntry(b) == Some(Entry(d, y))
    ensures Bindings([a, b]) == map[d := y]
  {
    assert [a, b][..1] == [a] && [a][..0] == [];
    assert Bindings([a]) == map[d := x];
    assert map[d := x][d := y] == map[d := y];
  }

  /** A placeholder that a later element overrides goes unnoticed. */
  lemma OverriddenPlaceholderIsIgnored(d: string, u: string)
    requires CanonicalKey(d) && Trimmed(u) && u != AUTO
    ensures var list := [PrintEntry(d, AUTO), PrintEntry(d, u)];
            Bindings(list) == map[d := u] && !NamesAuto(Bindings(list))
  {
    PrintedEntryParses(d, AUTO);
    PrintedEntryParses(d, u);
    SecondBindingWins(PrintEntry(d, AUTO), PrintEntry(d, u), d, AUTO, u);
  }

  lemma {:induction false} PrintedBinds(order: seq<string>, m: map<string, string>, d: string, u: string)
    requires Canonical(m) && forall k :: k in order ==> k in m
    ensures Maps(Bindings(Printed(order, m)), d, u) <==> d in order && m[d] == u
  {
    if |order| > 0 {
      var n := |order| - 1;
      var init, k := order[..n], order[n];
      assert order == init + [k];
      assert Printed(order, m)[..n] == Printed(init, m);
      PrintedBinds(init, m, d, u);
      PrintedEntryParses(k, m[k]);
      MapsStep(Bindings(Printed(init, m)), PrintEntry(k, m[k]), d, u);
    }
  }

  /** A map survives being printed, in any order, and parsed again exactly when it is canonical. */
  lemma RoundTripIff(m: map<string, string>, order: seq<string>)
    requires Enumerates(order, m)
    ensures Bindings(Printed(order, m)) == m <==> Canonical(m)
  {
    var again := Bindings(Printed(order, m));
    BindingsAreCanonical(Printed(order, m));
    if Canonical(m) {
      forall d, u ensures Maps(again, d, u) <==> Maps(m, d, u) { PrintedBinds(order, m, d, u); }
      SameMaps(again, m);
    }
  }

  lemma SameMaps(a: map<string, string>, b: map<string, string>)
    requires forall d, u :: Maps(a, d, u) <==> Maps(b, d, u)
    ensures a == b
  {
    forall d ensures d in a <==> d in b {
      if d in a { assert Maps(a, d, a[d]); }
      if d in b { assert Maps(b, d, b[d]); }
    }
    forall d | d in a ensures a[d] == b[d] { assert Maps(a, d, a[d]); }
  }

  /** Prints a map, in whatever order the iteration happens to take; parsing gives a canonical map back. */
  method PrintResolvers(m: map<string, string>) returns (list: seq<string>)
    ensures exists order :: Enumerates(order, m) && |list| == |order| &&
              forall i :: 0 <= i < |list| ==> list[i] == order[i] + " : " + m[order[i]]
    ensures Bindings(list) == m <==> Canonical(m)
  {
    list := [];
    ghost var order: seq<string> := [];
    var unseen := m.Keys;
    while unseen != {}
      invariant unseen <= m.Keys
      invariant forall d :: d in order <==> d in m && d !in unseen
      invariant forall i, j :: 0 <= i < j < |order| ==> order[i] != order[j]
      invariant list == Printed(order, m)
    {
      var d :| d in unseen;
      list, order := list + [d + " : " + m[d]], order + [d];
      unseen := unseen - {d};
    }
    RoundTripIff(m, order);
  }

  /** Parse, print, parse. */
  lemma ParsePrintParse(list: seq<string>, order: seq<string>)
    requires Enumerates(order, Bindings(list))
    ensures Bindings(Printed(order, Bindings(list))) == Bindings(list)
  {
    BindingsAreCanonical(list);
    RoundTripIff(Bindings(list), order);
  }

  // ----- Bootstrap peers -----

  method ExpandBootstrap(s: string) returns (r: Result<seq<string>, Error>)
    ensures s == "" ==> r == Success([])
    ensures r.Failure? <==> exists i :: 0 <= i < |Split(s, ',')| && Trim(Split(s, ',')[i]) == AUTO
    ensures r.Success? && s != "" ==>
              |r.value| == |Split(s, ',')| && forall i :: 0 <= i < |r.value| ==> r.value[i] == Trim(Split(s, ',')[i])
  {
    if s == "" {
      TrimPadded("", "", "");
      return Success([]);
    }
    ghost var parts := Split(s, ',');
    var list := new string[|Split(s, ',')|](i requires 0 <= i < |Split(s, ',')| => Split(s, ',')[i]);
    for i := 0 to list.Length
      invariant forall j :: 0 <= j < i ==> list[j] == Trim(parts[j])
      invariant forall j :: i <= j < list.Length ==> list[j] == parts[j]
    {
      list[i] := Trim(list[i]);
    }
    for i := 0 to list.Length
      invariant forall j :: 0 <= j < i ==> list[j] != AUTO
    {
      if list[i] == AUTO {
        assert exists k :: 0 <= k < |Split(s, ',')| && Trim(Split(s, ',')[k]) == AUTO;
        return Failure(AutoconfDisabled);
      }
    }
    return Success(list[..]);
  }

  /** Seen from the operator's side: entries written with commas between them come back one by one. */
  lemma BootstrapEntries(entries: seq<string>)
    requires |entries| > 0 && Free(entries, ',')
    ensures Split(Join(entries, ','), ',') == entries
    ensures Join(entries, ',') == "" ==> forall i :: 0 <= i < |entries| ==> Trim(entries[i]) != AUTO
  {
    SplitOfJoin(entries, ',');
    if Join(entries, ',') == "" {
      assert |entries| == 1;
      TrimPadded("", "", "");
    }
  }
}
