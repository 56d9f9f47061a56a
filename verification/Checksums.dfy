/** The SHA256SUMS file: one "hash  name" pair per line. */
module Checksums {
  import opened Common
  import opened Split
  import opened Text
  import opened Lines

  type Sums = map<string, string>

  function Line(hash: string, name: string): string {
    hash + "  " + name + "\n"
  }

  function Render(m: Sums, names: seq<string>): string
    requires forall n :: n in names ==> n in m
  {
    if names == [] then "" else Line(m[names[0]], names[0]) + Render(m, names[1..])
  }

  /** The file written for a map: a function of the map alone. */
  ghost function FileText(m: Sums): string {
    Render(m, SortedKeys(m.Keys))
  }

  lemma {:induction false} FileTextNotEmpty(m: Sums, n: string)
    requires n in m
    ensures FileText(m) != ""
  {
    var names := SortedKeys(m.Keys);
    assert n in names;
    assert FileText(m) == Line(m[names[0]], names[0]) + Render(m, names[1..]);
  }

  lemma {:induction false} RenderAppend(m: Sums, a: seq<string>, n: string)
    requires n in m && forall x :: x in a ==> x in m
    ensures Render(m, a + [n]) == Render(m, a) + Line(m[n], n)
  {
    if a == [] {
      assert a + [n] == [n];
      assert Render(m, [n]) == Line(m[n], n) + Render(m, []);
    } else {
      RenderAppend(m, a[1..], n);
      assert (a + [n])[1..] == a[1..] + [n];
      var first, rest := Line(m[a[0]], a[0]), Render(m, a[1..]);
      assert first + (rest + Line(m[n], n)) == (first + rest) + Line(m[n], n);
    }
  }

  /** The writing loop. */
  method WriteLines(m: Sums, names: seq<string>) returns (text: string)
    requires forall n :: n in names ==> n in m
    ensures text == Render(m, names)
  {
    text := "";
    for i := 0 to |names|
      invariant text == Render(m, names[..i])
    {
      var n := names[i];
      RenderAppend(m, names[..i], n);
      assert names[..i + 1] == names[..i] + [n];
      text := text + Line(m[n], n);
    }
    assert names[..|names|] == names;
  }

  /** `write_checksums_file`: entries come in hash order and are sorted by name. */
  method WriteChecksums(m: Sums) returns (text: string)
    ensures text == FileText(m)
  {
    var names := CollectSorted(m.Keys);
    text := WriteLines(m, names);
  }

  // -------------------------------------------------------------------- reading

  /** The first double space, or |s| if there is none. */
  function IndexOfGap(s: string): (i: nat)
    ensures i <= |s|
    ensures i < |s| ==> i + 1 < |s| && s[i] == ' ' && s[i + 1] == ' '
    ensures forall k :: 0 <= k < i && k + 1 < |s| ==> !(s[k] == ' ' && s[k + 1] == ' ')
  {
    if |s| < 2 then |s|
    else if s[0] == ' ' && s[1] == ' ' then 0
    else IndexOfGap(s[1..]) + 1
  }

  function StripCr(l: string): string {
    if l != [] && l[|l| - 1] == '\r' then l[..|l| - 1] else l
  }

  /** One line of the file: nothing, a pair, or an error. */
  datatype Entry = Blank | Pair(hash: string, name: string) | Malformed(line: string)

  function ParseLine(l: string): Entry {
    var t := Trim(StripCr(l));
    var i := IndexOfGap(t);
    if t == "" then Blank
    else if i == |t| then Malformed(t)
    else Pair(t[..i], t[i + 2..])
  }

  function ParseLines(ls: seq<string>, acc: Sums): Result<Sums, string> {
    if ls == [] then Ok(acc)
    else match ParseLine(ls[0])
         case Blank => ParseLines(ls[1..], acc)
         case Pair(hash, name) => ParseLines(ls[1..], acc[name := hash])
         case Malformed(line) => Err(line)
  }

  function ReadText(text: string): Result<Sums, string> {
    ParseLines(RawLines(text), map[])
  }

  /** `read_checksums_file`. */
  method ReadChecksums(text: string) returns (r: Result<Sums, string>)
    ensures r == ReadText(text)
  {
    var ls := RawLines(text);
    var m: Sums := map[];
    for i := 0 to |ls|
      invariant ParseLines(ls[i..], m) == ReadText(text)
    {
      assert ls[i..][1..] == ls[i + 1..];
      match ParseLine(ls[i])
      case Blank =>
      case Pair(hash, name) => m := m[name := hash];
      case Malformed(line) => return Err(line);
    }
    return Ok(m);
  }

  // --------------------------------------------------------------- what is accepted

  function Trimmed(l: string): string {
    Trim(StripCr(l))
  }

  predicate HasGap(t: string) {
    exists k :: 0 <= k < |t| - 1 && t[k] == ' ' && t[k + 1] == ' '
  }

  /** What a line is taken for, in terms of its trimmed text; a pair is cut at the first double space. */
  lemma {:induction false} LineMeans(l: string)
    ensures ParseLine(l).Blank? <==> Trimmed(l) == ""
    ensures ParseLine(l).Malformed? <==> Trimmed(l) != "" && !HasGap(Trimmed(l))
    ensures ParseLine(l).Malformed? ==> ParseLine(l).line == Trimmed(l)
    ensures ParseLine(l).Pair? ==>
              Trimmed(l) == ParseLine(l).hash + "  " + ParseLine(l).name && !HasGap(ParseLine(l).hash + " ")
  {
    var t := Trimmed(l);
    var i := IndexOfGap(t);
    if i < |t| {
      assert HasGap(t);
      var h := t[..i];
      assert t == h + "  " + t[i + 2..];
      var cut := h + " ";
      assert forall k :: 0 <= k < |cut| ==> cut[k] == t[k];
    }
  }

  /** The first line that is neither blank nor has a double space is the error. */
  lemma {:induction false} FirstBadLineIsTheError(ls: seq<string>, acc: Sums, i: nat)
    requires i < |ls| && Trimmed(ls[i]) != "" && !HasGap(Trimmed(ls[i]))
    requires forall j :: 0 <= j < i ==> Trimmed(ls[j]) == "" || HasGap(Trimmed(ls[j]))
    ensures ParseLines(ls, acc) == Err(Trimmed(ls[i]))
  {
    LineMeans(ls[0]);
    if i > 0 {
      assert Trimmed(ls[0]) == "" || HasGap(Trimmed(ls[0]));
      FirstBadLineIsTheError(ls[1..], if ParseLine(ls[0]).Pair? then acc[ParseLine(ls[0]).name := ParseLine(ls[0]).hash] else acc, i - 1);
    }
  }

  lemma {:induction false} GoodLinesParse(ls: seq<string>, acc: Sums)
    requires forall j :: 0 <= j < |ls| ==> Trimmed(ls[j]) == "" || HasGap(Trimmed(ls[j]))
    ensures ParseLines(ls, acc).Ok?
  {
    if ls != [] {
      LineMeans(ls[0]);
      assert Trimmed(ls[0]) == "" || HasGap(Trimmed(ls[0]));
      GoodLinesParse(ls[1..], if ParseLine(ls[0]).Pair? then acc[ParseLine(ls[0]).name := ParseLine(ls[0]).hash] else acc);
    }
  }

  /** A text is refused exactly if some line, once trimmed, is not empty and has no double space. */
  lemma {:induction false} ReadFailsIff(text: string)
    ensures ReadText(text).Err? <==> exists l :: l in RawLines(text) && Trimmed(l) != "" && !HasGap(Trimmed(l))
  {
    var ls := RawLines(text);
    if l :| l in ls && Trimmed(l) != "" && !HasGap(Trimmed(l)) {
      var i := FirstBad(ls, l);
      FirstBadLineIsTheError(ls, map[], i);
    } else {
      forall j | 0 <= j < |ls| ensures Trimmed(ls[j]) == "" || HasGap(Trimmed(ls[j])) {
        assert ls[j] in ls;
      }
      GoodLinesParse(ls, map[]);
    }
  }

  lemma {:induction false} FirstBad(ls: seq<string>, l: string) returns (i: nat)
    requires l in ls && Trimmed(l) != "" && !HasGap(Trimmed(l))
    ensures i < |ls| && Trimmed(ls[i]) != "" && !HasGap(Trimmed(ls[i]))
    ensures forall j :: 0 <= j < i ==> Trimmed(ls[j]) == "" || HasGap(Trimmed(ls[j]))
  {
    i := 0;
    while Trimmed(ls[i]) == "" || HasGap(Trimmed(ls[i]))
      invariant i < |ls| && l in ls[i..]
      invariant forall j :: 0 <= j < i ==> Trimmed(ls[j]) == "" || HasGap(Trimmed(ls[j]))
      decreases |ls| - i
    {
      assert ls[i..] == [ls[i]] + ls[i + 1..];
      i := i + 1;
    }
  }

  /** Of several lines for one name the last one counts. */
  lemma {:induction false} LastPairWins(ls: seq<string>, acc: Sums, i: nat)
    requires ParseLines(ls, acc).Ok? && i < |ls| && ParseLine(ls[i]).Pair?
    requires forall j :: i < j < |ls| && ParseLine(ls[j]).Pair? ==> ParseLine(ls[j]).name != ParseLine(ls[i]).name
    ensures var m := ParseLines(ls, acc).value; var p := ParseLine(ls[i]);
            p.name in m && m[p.name] == p.hash
  {
    var p := ParseLine(ls[0]);
    if i > 0 {
      LastPairWins(ls[1..], if p.Pair? then acc[p.name := p.hash] else acc, i - 1);
    } else {
      OtherNamesKept(ls[1..], acc[p.name := p.hash], p.name);
    }
  }

  lemma {:induction false} OtherNamesKept(ls: seq<string>, acc: Sums, n: string)
    requires ParseLines(ls, acc).Ok? && forall l :: l in ls && ParseLine(l).Pair? ==> ParseLine(l).name != n
    ensures n in ParseLines(ls, acc).value <==> n in acc
    ensures n in acc ==> ParseLines(ls, acc).value[n] == acc[n]
  {
    if ls != [] {
      var p := ParseLine(ls[0]);
      OtherNamesKept(ls[1..], if p.Pair? then acc[p.name := p.hash] else acc, n);
    }
  }

  /** The written file: one line per entry, in ascending order of the names. */
  lemma {:induction false} FileIsSortedLines(m: Sums, names: seq<string>)
    requires (forall n :: n in names ==> n in m) && forall n :: n in m ==> '\n' !in n && '\n' !in m[n]
    ensures |RawLines(Render(m, names))| == |names|
    ensures forall i :: 0 <= i < |names| ==> RawLines(Render(m, names))[i] == m[names[i]] + "  " + names[i]
  {
    if names != [] {
      var l, rest := m[names[0]] + "  " + names[0], Render(m, names[1..]);
      assert Render(m, names) == l + "\n" + rest;
      RawLinesCons(l, rest);
      FileIsSortedLines(m, names[1..]);
    }
  }

  // ---------------------------------------------------------------- round trip

  /** Hashes the format can carry. */
  predicate CleanHash(h: string) {
    && h != "" && !IsWhitespace(h[0]) && h[|h| - 1] != ' ' && '\n' !in h
    && forall k :: 0 <= k < |h| - 1 ==> !(h[k] == ' ' && h[k + 1] == ' ')
  }

  /** Names the format can carry: double spaces inside and leading spaces are fine. */
  predicate CleanName(n: string) {
    n != "" && !IsWhitespace(n[|n| - 1]) && '\n' !in n
  }

  predicate Clean(m: Sums) {
    forall n :: n in m ==> CleanName(n) && CleanHash(m[n])
  }

  lemma {:induction false} GapAfterHash(h: string, n: string)
    requires CleanHash(h)
    ensures IndexOfGap(h + "  " + n) == |h|
  {
    var s := h + "  " + n;
    assert s[|h|] == ' ' && s[|h| + 1] == ' ';
    assert forall k :: 0 <= k < |h| ==> s[k] == h[k];
  }

  lemma {:induction false} LineRoundTrip(h: string, n: string)
    requires CleanHash(h) && CleanName(n)
    ensures ParseLine(h + "  " + n) == Pair(h, n) && '\n' !in h + "  " + n
  {
    var l := h + "  " + n;
    assert l[0] == h[0] && l[|l| - 1] == n[|n| - 1];
    assert IsWhitespace('\r');
    assert StripCr(l) == l && Trim(l) == l by { TrimFacts(l); }
    GapAfterHash(h, n);
    assert l[..|h|] == h && l[|h| + 2..] == n;
    assert forall c :: c in l ==> c in h || c == ' ' || c in n;
  }

  /** `acc` updated with the entries of `m` for `names`, in order. */
  function Updated(m: Sums, names: seq<string>, acc: Sums): Sums
    requires forall n :: n in names ==> n in m
  {
    if names == [] then acc else Updated(m, names[1..], acc[names[0] := m[names[0]]])
  }

  lemma {:induction false} UpdatedContents(m: Sums, names: seq<string>, acc: Sums, x: string)
    requires forall n :: n in names ==> n in m
    ensures x in Updated(m, names, acc) <==> x in names || x in acc
    ensures x in names ==> Updated(m, names, acc)[x] == m[x]
    ensures x !in names && x in acc ==> Updated(m, names, acc)[x] == acc[x]
  {
    if names != [] {
      UpdatedContents(m, names[1..], acc[names[0] := m[names[0]]], x);
    }
  }

  lemma {:induction false} ReadsBack(m: Sums, names: seq<string>, acc: Sums)
    requires Clean(m) && forall n :: n in names ==> n in m
    ensures ParseLines(RawLines(Render(m, names)), acc) == Ok(Updated(m, names, acc))
  {
    if names != [] {
      var n := names[0];
      var l, rest := m[n] + "  " + n, Render(m, names[1..]);
      LineRoundTrip(m[n], n);
      RawLinesCons(l, rest);
      assert Render(m, names) == l + "\n" + rest;
      var ls := RawLines(Render(m, names));
      assert ls[0] == l && ls[1..] == RawLines(rest);
      ReadsBack(m, names[1..], acc[n := m[n]]);
    }
  }

  /** Whatever is read from a line is clean. */
  lemma {:induction false} ParsedPairIsClean(l: string)
    requires '\n' !in l && ParseLine(l).Pair?
    ensures CleanHash(ParseLine(l).hash) && CleanName(ParseLine(l).name)
  {
    var t := Trim(StripCr(l));
    TrimFacts(StripCr(l));
    var i := IndexOfGap(t);
    var h, n := t[..i], t[i + 2..];
    assert IsWhitespace(' ');
    assert i > 0;
    assert t[|t| - 1] != ' ';
    assert forall k :: 0 <= k < |h| ==> h[k] == t[k];
    assert h[|h| - 1] != ' ' by { assert t[i - 1] == h[|h| - 1]; }
    assert n[|n| - 1] == t[|t| - 1];
    assert forall c :: c in h || c in n ==> c in t;
  }

  lemma {:induction false} ReadResultIsClean(ls: seq<string>, acc: Sums)
    requires Clean(acc) && forall l :: l in ls ==> '\n' !in l
    ensures ParseLines(ls, acc).Ok? ==> Clean(ParseLines(ls, acc).value)
  {
    if ls != [] {
      match ParseLine(ls[0])
      case Blank => ReadResultIsClean(ls[1..], acc);
      case Pair(hash, name) =>
        ParsedPairIsClean(ls[0]);
        ReadResultIsClean(ls[1..], acc[name := hash]);
      case Malformed(_) =>
    }
  }

  /** Reading a written checksums file yields the original map exactly when every entry is clean. */
  lemma {:induction false} ChecksumsRoundTrip(m: Sums)
    ensures ReadText(FileText(m)) == Ok(m) <==> Clean(m)
  {
    if Clean(m) {
      ReadsBack(m, SortedKeys(m.Keys), map[]);
      UpdatedIsWhole(m, SortedKeys(m.Keys));
    } else {
      ReadResultIsClean(RawLines(FileText(m)), map[]);
    }
  }

  lemma {:induction false} UpdatedIsWhole(m: Sums, names: seq<string>)
    requires forall n :: n in names <==> n in m
    ensures Updated(m, names, map[]) == m
  {
    forall x { UpdatedContents(m, names, map[], x); }
  }
}
