/**
  Concept identifiers of an imported catalog: unique and never a reserved file
  name, and linked to their longest existing ancestor path.

  Identifiers are strings of characters, paths split at slashes, and the search
  for a free suffix ends because only finitely many are taken.
 */
module ConceptIds {
  import opened Wrappers
  import opened Numerals
  import FormatUnits

  // ---------------------------------------------------------------- the last path element

  function TrimSlashes(s: string): string {
    if s != "" && s[|s| - 1] == '/' then TrimSlashes(s[..|s| - 1]) else s
  }

  function AfterLastSlash(s: string): (r: string)
    ensures s != "" && s[|s| - 1] != '/' ==> r != "" && r[|r| - 1] == s[|s| - 1]
  {
    if s == "" || s[|s| - 1] == '/' then ""
    else AfterLastSlash(s[..|s| - 1]) + [s[|s| - 1]]
  }

  /** The last element of a path, as path.Base gives it. */
  function BaseName(s: string): string {
    if s == "" then "."
    else if TrimSlashes(s) == "" then "/"
    else AfterLastSlash(TrimSlashes(s))
  }

  predicate ReservedFile(name: string) { name == "index.md" || name == "log.md" }

  predicate Reserved(id: string) { ReservedFile(BaseName(id) + ".md") }

  /** e is the last element of the path s. */
  predicate EndsIn(s: string, e: string) {
    |e| <= |s| && s[|s| - |e|..] == e && (|s| == |e| || s[|s| - |e| - 1] == '/')
  }

  lemma {:induction false} AfterLastSlashExact(s: string, e: string)
    requires '/' !in e
    ensures AfterLastSlash(s) == e <==> EndsIn(s, e)
  {
    hide EndsIn;
    if s == "" || s[|s| - 1] == '/' {
      EndsAfterSlash(s, e);
    } else if e == "" {
      EndsAfterSlash(s, e);
    } else {
      var n, m := |s| - 1, |e| - 1;
      AfterLastSlashExact(s[..n], e[..m]);
      assert e == e[..m] + [e[m]];
      SnocEqual(AfterLastSlash(s[..n]), e[..m], s[n], e[m]);
      EndsInSnoc(s, e);
    }
  }

  lemma EndsAfterSlash(s: string, e: string)
    requires '/' !in e && (s == "" || s[|s| - 1] == '/' || e == "")
    ensures EndsIn(s, e) <==> e == "" && (s == "" || s[|s| - 1] == '/')
  {
    if s != "" && e != "" && |e| <= |s| {
      assert s[|s| - |e|..][|e| - 1] == s[|s| - 1];
    }
  }

  lemma EndsInSnoc(s: string, e: string)
    requires s != "" && e != ""
    ensures var n, m := |s| - 1, |e| - 1; EndsIn(s, e) <==> e[m] == s[n] && EndsIn(s[..n], e[..m])
  {
    var n, m := |s| - 1, |e| - 1;
    if m <= n {
      assert s[n - m..] == s[..n][n - m..] + [s[n]];
      SnocEqual(s[..n][n - m..], e[..m], s[n], e[m]);
      assert e == e[..m] + [e[m]];
    }
  }

  lemma SnocEqual<T>(a: seq<T>, b: seq<T>, x: T, y: T)
    ensures a + [x] == b + [y] <==> a == b && x == y
  {
    if a + [x] == b + [y] {
      assert |a| == |b|;
      assert (a + [x])[..|a|] == a && (b + [y])[..|b|] == b && (a + [x])[|a|] == x && (b + [y])[|b|] == y;
    }
  }

  /** Exactly the paths whose last element is index or log name reserved files. */
  lemma ReservedExact(id: string)
    requires id != "" && id[|id| - 1] != '/'
    ensures Reserved(id) <==> EndsIn(id, "index") || EndsIn(id, "log")
  {
    hide AfterLastSlash;
    AfterLastSlashExact(id, "index");
    AfterLastSlashExact(id, "log");
    assert TrimSlashes(id) == id;
    var name := BaseName(id);
    assert name + ".md" == "index.md" <==> name == "index" by {
      DropMd(name, "index");
    }
    assert name + ".md" == "log.md" <==> name == "log" by {
      DropMd(name, "log");
    }
  }

  lemma DropMd(a: string, b: string)
    ensures a + ".md" == b + ".md" <==> a == b
    ensures "index" + ".md" == "index.md" && "log" + ".md" == "log.md"
  {
    if a + ".md" == b + ".md" {
      assert |a| == |b|;
      assert (a + ".md")[..|a|] == a && (b + ".md")[..|b|] == b;
    }
  }

  /** An identifier that does not end in x, g or a slash cannot name a reserved file. */
  lemma SuffixNotReserved(id: string)
    requires id != "" && id[|id| - 1] != 'x' && id[|id| - 1] != 'g' && id[|id| - 1] != '/'
    ensures !Reserved(id)
  {
    var name := BaseName(id);
    var file := name + ".md";
    assert file[|file| - 4] == name[|name| - 1];
    assert "index.md"[4] == 'x' && "log.md"[2] == 'g';
  }

  // ---------------------------------------------------------------- unique identifiers

  function DecimalString(n: nat): (s: string)
    ensures s != "" && '0' <= s[|s| - 1] <= '9'
  {
    FormatUnits.DigitString(FormatUnits.Decimal(n))
  }

  function Candidate(id: string, n: nat): string { id + "-" + DecimalString(n) }

  lemma CandidateInjective(id: string, m: nat, n: nat)
    requires Candidate(id, m) == Candidate(id, n)
    ensures m == n
  {
    var s, t := DecimalString(m), DecimalString(n);
    assert Candidate(id, m)[|id| + 1..] == s && Candidate(id, n)[|id| + 1..] == t;
    FormatUnits.DigitsOfString(FormatUnits.Decimal(m));
    FormatUnits.DigitsOfString(FormatUnits.Decimal(n));
    DecimalValue(m);
    DecimalValue(n);
  }

  lemma DecimalValue(n: nat)
    ensures ToNat(10, FormatUnits.Decimal(n)) == n
  {
    if n > 0 {
      ToNatFromNat(10, n);
    }
  }

  /** r is the id with the smallest suffix from 2 on that no used identifier has. */
  ghost predicate FirstFree(id: string, used: set<string>, r: string) {
    r !in used && exists n :: n >= 2 && r == Candidate(id, n) && forall k :: 2 <= k < n ==> Candidate(id, k) in used
  }

  /** The search ends: a finite set cannot hold every candidate. */
  method UniqueId(id: string, used: set<string>) returns (r: string)
    ensures FirstFree(id, used, r)
  {
    hide Candidate;
    var n := 2;
    ghost var tried: set<string> := {};
    while true
      invariant n >= 2 && |tried| == n - 2 && tried <= used
      invariant forall c :: c in tried ==> exists k :: 2 <= k < n && c == Candidate(id, k)
      invariant forall k :: 2 <= k < n ==> Candidate(id, k) in used
      decreases |used| - |tried|
    {
      SubsetSize(tried, used);
      var candidate := Candidate(id, n);
      if candidate !in used {
        return candidate;
      }
      NotTried(id, n, tried);
      SubsetSize(tried + {candidate}, used);
      tried := tried + {candidate};
      n := n + 1;
    }
  }

  lemma NotTried(id: string, n: nat, tried: set<string>)
    requires forall c :: c in tried ==> exists k :: 2 <= k < n && c == Candidate(id, k)
    ensures Candidate(id, n) !in tried
  {
    hide Candidate;
    if Candidate(id, n) in tried {
      var k :| 2 <= k < n && Candidate(id, n) == Candidate(id, k);
      CandidateInjective(id, n, k);
    }
  }

  /** The name an id is adjusted to before uniqueness is looked at. */
  function Unreserved(id: string): string { if Reserved(id) then id + "-asset" else id }

  ghost predicate SafeId(id: string, used: set<string>, r: string) {
    if Unreserved(id) in used then FirstFree(Unreserved(id), used, r) else r == Unreserved(id)
  }

  method SafeConceptId(id: string, used: set<string>, collisions: nat) returns (r: string, count: nat)
    ensures SafeId(id, used, r)
    ensures count == collisions + (if Reserved(id) then 1 else 0) + (if Unreserved(id) in used then 1 else 0)
  {
    r, count := id, collisions;
    if ReservedFile(BaseName(id) + ".md") {
      count := count + 1;
      r := r + "-asset";
    }
    if r in used {
      count := count + 1;
      r := UniqueId(r, used);
    }
  }

  /** A safe id is unused and unreserved, and is the id itself exactly when nothing had to be adjusted. */
  lemma SafeIdIsSafe(id: string, used: set<string>, r: string)
    requires SafeId(id, used, r)
    ensures r !in used && !Reserved(r)
    ensures r == id <==> !Reserved(id) && id !in used
  {
    hide Reserved;
    if Reserved(id) {
      SuffixNotReserved(id + "-asset");
    }
    if Unreserved(id) in used {
      var n :| n >= 2 && r == Candidate(Unreserved(id), n);
      SuffixNotReserved(r);
    }
  }

  function Elements(ids: seq<string>): set<string> { set i | 0 <= i < |ids| :: ids[i] }

  ghost predicate Assigned(bases: seq<string>, ids: seq<string>) {
    |ids| == |bases| && forall i :: 0 <= i < |ids| ==> SafeId(bases[i], Elements(ids[..i]), ids[i])
  }

  /** How often the first n entries had to be adjusted: once for a reserved name, once more for a taken one. */
  function Adjustments(bases: seq<string>, ids: seq<string>, n: nat): nat
    requires n <= |bases| && n <= |ids|
  {
    if n == 0 then 0
    else
      Adjustments(bases, ids, n - 1)
      + (if Reserved(bases[n - 1]) then 1 else 0) + (if Unreserved(bases[n - 1]) in Elements(ids[..n - 1]) then 1 else 0)
  }

  lemma {:induction false} AdjustmentsPrefix(bases: seq<string>, ids: seq<string>, more: string, n: nat)
    requires n <= |bases| && n <= |ids|
    ensures Adjustments(bases, ids + [more], n) == Adjustments(bases, ids, n)
  {
    hide Reserved, Elements, Unreserved;
    if n == 0 {
    } else {
      AdjustmentsPrefix(bases, ids, more, n - 1);
      assert (ids + [more])[..n - 1] == ids[..n - 1];
    }
  }

  /** The import loop: each entry in turn gets an id no earlier entry has. */
  method AssignIds(bases: seq<string>) returns (ids: seq<string>, used: set<string>, collisions: nat)
    ensures Assigned(bases, ids) && used == Elements(ids)
    ensures collisions == Adjustments(bases, ids, |bases|) && (collisions == 0 <==> ids == bases)
  {
    hide SafeId, Reserved;
    ids, used, collisions := [], {}, 0;
    for i := 0 to |bases|
      invariant Assigned(bases[..i], ids) && used == Elements(ids)
      invariant collisions == Adjustments(bases, ids, i) && (collisions == 0 <==> ids == bases[..i])
    {
      var id, count := SafeConceptId(bases[i], used, collisions);
      SafeIdIsSafe(bases[i], used, id);
      AssignedSnoc(bases[..i], ids, bases[i], id);
      assert bases[..i + 1] == bases[..i] + [bases[i]];
      SnocEqual(ids, bases[..i], id, bases[i]);
      AdjustmentsPrefix(bases, ids, id, i);
      assert (ids + [id])[..i] == ids;
      ids := ids + [id];
      used := used + {id};
      collisions := count;
    }
    assert bases[..|bases|] == bases;
  }

  lemma AssignedSnoc(bases: seq<string>, ids: seq<string>, base: string, id: string)
    requires Assigned(bases, ids) && SafeId(base, Elements(ids), id)
    ensures Assigned(bases + [base], ids + [id]) && Elements(ids + [id]) == Elements(ids) + {id}
  {
    hide SafeId;
    var more := ids + [id];
    forall i | 0 <= i < |more| ensures SafeId((bases + [base])[i], Elements(more[..i]), more[i]) {
      if i < |ids| {
        assert more[..i] == ids[..i];
      } else {
        assert more[..i] == ids;
      }
    }
    assert more[|ids|] == id;
    forall x | x in Elements(ids) ensures x in Elements(more) {
      var i :| 0 <= i < |ids| && ids[i] == x;
      assert more[i] == x;
    }
  }

  /** Assigned ids are pairwise distinct and none is reserved, whatever entries come in. */
  lemma AssignedAreSafe(bases: seq<string>, ids: seq<string>, i: nat, j: nat)
    requires Assigned(bases, ids) && i < j < |ids|
    ensures ids[i] != ids[j] && !Reserved(ids[i]) && !Reserved(ids[j])
  {
    hide Reserved, SafeId;
    SafeIdIsSafe(bases[i], Elements(ids[..i]), ids[i]);
    SafeIdIsSafe(bases[j], Elements(ids[..j]), ids[j]);
    assert ids[..j][i] == ids[i];
  }

  // ---------------------------------------------------------------- containment

  function FirstSlash(s: string): (p: nat)
    ensures p <= |s| && (p < |s| ==> s[p] == '/')
    ensures forall i :: 0 <= i < p ==> s[i] != '/'
  {
    if s == "" || s[0] == '/' then 0 else 1 + FirstSlash(s[1..])
  }

  function Split(s: string): (parts: seq<string>)
    ensures parts != []
    decreases |s|
  {
    var p := FirstSlash(s);
    if p == |s| then [s] else [s[..p]] + Split(s[p + 1..])
  }

  function Join(parts: seq<string>): string
    requires parts != []
  {
    if |parts| == 1 then parts[0] else parts[0] + "/" + Join(parts[1..])
  }

  lemma SplitStep(s: string, k: nat)
    requires k < |s| && FirstSlash(s) == k
    ensures Split(s) == [s[..k]] + Split(s[k + 1..])
  {
  }

  lemma NoSlash(p: string)
    requires FirstSlash(p) == |p|
    ensures Split(p) == [p]
  {
  }

  lemma JoinCons(x: string, parts: seq<string>)
    requires parts != []
    ensures Join([x] + parts) == x + "/" + Join(parts) && Join([x]) == x
  {
    assert ([x] + parts)[1..] == parts;
  }

  lemma {:induction false} JoinSplit(s: string)
    ensures Join(Split(s)) == s
    decreases |s|
  {
    hide Join, Split, FirstSlash;
    var p := FirstSlash(s);
    if p == |s| {
      NoSlash(s);
      JoinCons(s, [""]);
    } else {
      var rest := s[p + 1..];
      JoinSplit(rest);
      SplitStep(s, p);
      JoinCons(s[..p], Split(rest));
      assert s == s[..p] + "/" + rest;
    }
  }

  lemma {:induction false} JoinAt(parts: seq<string>, i: nat)
    requires 0 < i < |parts|
    ensures Join(parts) == Join(parts[..i]) + "/" + Join(parts[i..])
    decreases i
  {
    if i == 1 {
    } else {
      JoinAt(parts[1..], i - 1);
      assert parts[1..][..i - 1] == parts[..i][1..] && parts[1..][i - 1..] == parts[i..];
      var a, b, c := parts[0] + "/", Join(parts[..i][1..]), "/" + Join(parts[i..]);
      assert a + (b + c) == (a + b) + c;
      assert Join(parts[1..]) == b + c;
    }
  }

  lemma {:induction false} SlashIs(s: string, k: nat)
    requires k < |s| && s[k] == '/' && forall i :: 0 <= i < k ==> s[i] != '/'
    ensures FirstSlash(s) == k
  {
    if k == 0 {
    } else {
      SlashIs(s[1..], k - 1);
    }
  }

  lemma {:induction false} SplitConcat(p: string, r: string)
    ensures Split(p + "/" + r) == Split(p) + Split(r)
    decreases |p|
  {
    hide Split;
    var s := p + "/" + r;
    var k := FirstSlash(p);
    assert s[..k] == p[..k];
    SlashIs(s, k);
    SplitStep(s, k);
    if k == |p| {
      assert p[..k] == p && s[k + 1..] == r;
      NoSlash(p);
    } else {
      SplitConcat(p[k + 1..], r);
      SplitStep(p, k);
      assert s[k + 1..] == p[k + 1..] + "/" + r;
      assert [p[..k]] + (Split(p[k + 1..]) + Split(r)) == ([p[..k]] + Split(p[k + 1..])) + Split(r);
    }
  }

  /** p is a proper path prefix of id. */
  predicate Ancestor(p: string, id: string) { |p| < |id| && id[..|p|] == p && id[|p|] == '/' }

  /** The proper prefixes of a path are the joins of its first parts. */
  lemma AncestorParts(p: string, id: string)
    ensures Ancestor(p, id) ==> |Split(p)| < |Split(id)| && p == Join(Split(id)[..|Split(p)|])
  {
    if Ancestor(p, id) {
      var r := id[|p| + 1..];
      assert id == p + "/" + r;
      SplitConcat(p, r);
      assert Split(id)[..|Split(p)|] == Split(p);
      JoinSplit(p);
    }
  }

  lemma PartsAncestor(id: string, i: nat)
    requires 0 < i < |Split(id)|
    ensures Ancestor(Join(Split(id)[..i]), id)
  {
    JoinAt(Split(id), i);
    JoinSplit(id);
  }

  lemma PrefixesGrow(parts: seq<string>, i: nat, j: nat)
    requires 0 < i < j <= |parts|
    ensures |Join(parts[..i])| < |Join(parts[..j])|
  {
    JoinAt(parts[..j], i);
    assert parts[..j][..i] == parts[..i];
  }

  /** r is the longest proper prefix of id among ids, "" when there is none. */
  predicate LongestPrefix(id: string, ids: set<string>, r: string) {
    (r != "" ==> r in ids && Ancestor(r, id)) && forall p :: p in ids && Ancestor(p, id) ==> |p| <= |r|
  }

  method LongestPrefixIn(id: string, ids: set<string>) returns (r: string)
    ensures LongestPrefix(id, ids, r)
  {
    hide Split, Join, Ancestor;
    var parts := Split(id);
    var i := |parts| - 1;
    while i >= 1
      invariant 0 <= i < |parts|
      invariant forall j :: i < j < |parts| ==> Join(parts[..j]) !in ids
    {
      var p := Join(parts[..i]);
      if p in ids {
        PartsAncestor(id, i);
        forall q | q in ids && Ancestor(q, id) ensures |q| <= |p| {
          AncestorParts(q, id);
          var k := |Split(q)|;
          if k < i {
            PrefixesGrow(parts, k, i);
          }
        }
        return p;
      }
      i := i - 1;
    }
    forall q | q in ids ensures !Ancestor(q, id) {
      AncestorParts(q, id);
    }
    r := "";
  }

  predicate IsParent(ids: set<string>, child: string, parent: string) { parent != "" && LongestPrefix(child, ids, parent) }

  /** Each link of a chain goes from an id to its containment parent. */
  predicate ParentChain(ids: set<string>, chain: seq<string>) {
    forall i :: 0 < i < |chain| ==> IsParent(ids, chain[i - 1], chain[i])
  }

  lemma {:induction false} ChainShrinks(ids: set<string>, chain: seq<string>, i: nat, j: nat)
    requires ParentChain(ids, chain) && i <= j < |chain|
    ensures |chain[j]| + (j - i) <= |chain[i]|
    decreases j
  {
    if i == j {
    } else {
      ChainShrinks(ids, chain, i, j - 1);
      assert IsParent(ids, chain[j - 1], chain[j]);
    }
  }

  /** Parent links form a forest: no chain of them meets an id twice, and none is longer than the id it starts from. */
  lemma ParentsFormAForest(ids: set<string>, chain: seq<string>, i: nat, j: nat)
    requires ParentChain(ids, chain) && i < j < |chain|
    ensures chain[i] != chain[j] && |chain| <= |chain[0]| + 1
  {
    ChainShrinks(ids, chain, i, j);
    ChainShrinks(ids, chain, 0, |chain| - 1);
  }

  /** A parent is unique. */
  lemma ParentIsUnique(id: string, ids: set<string>, r: string, q: string)
    requires LongestPrefix(id, ids, r) && LongestPrefix(id, ids, q)
    ensures r == q
  {
    if r != "" && q != "" {
      assert r == id[..|r|] && q == id[..|q|];
    }
  }
}
