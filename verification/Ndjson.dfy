/** Newline-delimited JSON: one record per line, blank lines skipped. */
module Ndjson {
  import opened Common
  import opened Split
  import opened Lines

  /** A serialiser and its parser; records are opaque. */
  datatype Codec<!V> = Codec(encode: V -> string, decode: string -> Option<V>)

  /** Printing is undone by parsing. */
  ghost predicate RoundTrips<V(!new)>(c: Codec<V>) {
    forall v :: c.decode(c.encode(v)) == Some(v)
  }

  /**
   A printed record is one non-empty line: the compact printer adds no white space and section 7 of
   RFC 8259 has control characters escaped.
   */
  ghost predicate OneLine<V(!new)>(c: Codec<V>) {
    forall v :: c.encode(v) != "" && '\n' !in c.encode(v) && IsTrimmed(c.encode(v))
  }

  datatype Item<V> = Record(value: V) | Bad(line: string)

  predicate IsBlank(line: string) {
    Trim(line) == ""
  }

  function ItemOf<V>(line: string, decode: string -> Option<V>): Item<V> {
    var v := decode(Trim(line));
    if v.Some? then Record(v.value) else Bad(Trim(line))
  }

  /** What one line is worth on its own: a blank line nothing, any other line exactly one item. */
  function Worth<V>(line: string, decode: string -> Option<V>): seq<Item<V>> {
    if IsBlank(line) then [] else [ItemOf(line, decode)]
  }

  /** A blank line is worth nothing; any other one is worth one item, which is bad exactly if it does not decode. */
  lemma {:induction false} WorthOfLine<V>(line: string, decode: string -> Option<V>)
    ensures Trim(line) == "" ==> Worth(line, decode) == []
    ensures Trim(line) != "" ==>
              && |Worth(line, decode)| == 1
              && (decode(Trim(line)).None? ==> Worth(line, decode)[0] == Bad(Trim(line)))
              && (decode(Trim(line)).Some? ==> Worth(line, decode)[0] == Record(decode(Trim(line)).value))
  {
  }

  /** What a reader yields for a list of lines. */
  function Items<V>(ls: seq<string>, decode: string -> Option<V>): seq<Item<V>> {
    if ls == [] then []
    else Worth(ls[0], decode) + Items(ls[1..], decode)
  }

  function ReadAll<V>(text: string, decode: string -> Option<V>): seq<Item<V>> {
    Items(RawLines(text), decode)
  }

  // -------------------------------------------------------------- reader, writer

  class NdjsonReader<!V> {
    var rest: string
    const decode: string -> Option<V>

    constructor (text: string, decode: string -> Option<V>)
      ensures rest == text && this.decode == decode
    {
      rest := text;
      this.decode := decode;
    }

    /** The iterator step; it calls itself to skip a blank line, having consumed that line. */
    method Next() returns (r: Option<Item<V>>)
      modifies this
      ensures r.None? ==> ReadAll(old(rest), decode) == []
      ensures r.Some? ==> ReadAll(old(rest), decode) == [r.value] + ReadAll(rest, decode) && |rest| < |old(rest)|
      decreases |rest|
    {
      if rest == "" {
        return None;
      }
      var i := IndexOf(rest, '\n');
      var line := rest[..i];
      rest := if i < |rest| then rest[i + 1..] else "";
      ghost var ls := RawLines(old(rest));
      assert ls[0] == line && ls[1..] == RawLines(rest);
      if IsBlank(line) {
        r := Next();
      } else {
        r := Some(ItemOf(line, decode));
      }
    }
  }

  class NdjsonWriter<!V> {
    var text: string
    var count: nat
    const encode: V -> string

    constructor (encode: V -> string)
      ensures text == "" && count == 0 && this.encode == encode
    {
      text, count := "", 0;
      this.encode := encode;
    }

    method WriteRecord(v: V)
      modifies this
      ensures text == old(text) + encode(v) + "\n" && count == old(count) + 1
    {
      text := text + encode(v);
      text := text + "\n";
      count := count + 1;
    }

    /** A whole batch of records. */
    method WriteAll(vs: seq<V>)
      modifies this
      ensures text == old(text) + Written(vs, encode) && count == old(count) + |vs|
    {
      assert text + Written([], encode) == text;
      for i := 0 to |vs|
        invariant text == old(text) + Written(vs[..i], encode) && count == old(count) + i
      {
        WrittenAppend(vs[..i], vs[i], encode);
        assert vs[..i + 1] == vs[..i] + [vs[i]];
        WriteRecord(vs[i]);
      }
      assert vs[..|vs|] == vs;
    }
  }

  /** The text of a list of records. */
  function Written<V>(vs: seq<V>, encode: V -> string): string {
    if vs == [] then "" else encode(vs[0]) + "\n" + Written(vs[1..], encode)
  }

  lemma {:induction false} WrittenAppend<V>(vs: seq<V>, v: V, encode: V -> string)
    ensures Written(vs + [v], encode) == Written(vs, encode) + encode(v) + "\n"
  {
    if vs == [] {
      assert vs + [v] == [v];
      assert Written([v], encode) == encode(v) + "\n" + Written([], encode);
    } else {
      WrittenAppend(vs[1..], v, encode);
      assert (vs + [v])[1..] == vs[1..] + [v];
    }
  }

  // ------------------------------------------------------------------ properties

  function Records<V>(vs: seq<V>): seq<Item<V>> {
    if vs == [] then [] else [Record(vs[0])] + Records(vs[1..])
  }

  /** Writing then reading returns the same records in the same order. */
  lemma {:induction false} NdjsonRoundTrip<V(!new)>(vs: seq<V>, c: Codec<V>)
    requires RoundTrips(c) && OneLine(c)
    ensures ReadAll(Written(vs, c.encode), c.decode) == Records(vs)
  {
    if vs != [] {
      var line, rest := c.encode(vs[0]), Written(vs[1..], c.encode);
      assert c.decode(c.encode(vs[0])) == Some(vs[0]);
      RawLinesCons(line, rest);
      TrimFacts(line);
      NdjsonRoundTrip(vs[1..], c);
      var ls := RawLines(line + "\n" + rest);
      assert ls[0] == line && ls[1..] == RawLines(rest);
    }
  }

  /** The text of a list of lines. */
  function Unlines(ls: seq<string>): string {
    if ls == [] then "" else ls[0] + "\n" + Unlines(ls[1..])
  }

  /** What follows the last newline is a line unless it is empty. */
  function LastOf(last: string): seq<string> {
    if last == "" then [] else [last]
  }

  /** The lines of a text whose last line, `last`, need not be terminated. */
  lemma {:induction false} LinesOfUnlines(ls: seq<string>, last: string)
    requires (forall l :: l in ls ==> '\n' !in l) && '\n' !in last
    ensures RawLines(Unlines(ls) + last) == ls + LastOf(last)
  {
    if ls == [] {
      assert Unlines(ls) + last == last;
      assert ls + LastOf(last) == LastOf(last);
    } else {
      calc {
        RawLines(Unlines(ls) + last);
        { assert Unlines(ls) + last == ls[0] + "\n" + (Unlines(ls[1..]) + last); }
        RawLines(ls[0] + "\n" + (Unlines(ls[1..]) + last));
        { RawLinesCons(ls[0], Unlines(ls[1..]) + last); }
        [ls[0]] + RawLines(Unlines(ls[1..]) + last);
        { LinesOfUnlines(ls[1..], last); }
        [ls[0]] + (ls[1..] + LastOf(last));
        ls + LastOf(last);
      }
    }
  }

  lemma {:induction false} ItemsAppend<V>(a: seq<string>, b: seq<string>, decode: string -> Option<V>)
    ensures Items(a + b, decode) == Items(a, decode) + Items(b, decode)
  {
    if a == [] {
      assert a + b == b;
    } else {
      ItemsAppend(a[1..], b, decode);
      assert (a + b)[1..] == a[1..] + b;
      var first, rest := Worth(a[0], decode), Items(a[1..], decode);
      assert first + (rest + Items(b, decode)) == (first + rest) + Items(b, decode);
    }
  }

  /**
   A line put anywhere in a file, before a possibly unterminated last line `last`, adds what it is worth
   and disturbs neither the lines before it nor those after it.
   */
  lemma {:induction false} OneLineAmongOthers<V>(a: seq<string>, line: string, b: seq<string>, last: string, decode: string -> Option<V>)
    requires (forall l :: l in a || l in b ==> '\n' !in l) && '\n' !in line && '\n' !in last
    ensures ReadAll(Unlines(a + [line] + b) + last, decode) ==
            ReadAll(Unlines(a), decode) + Worth(line, decode) + ReadAll(Unlines(b) + last, decode)
  {
    LinesOfUnlines(a + [line] + b, last);
    LinesOfTerminated(a);
    LinesOfUnlines(b, last);
    assert a + [line] + b + LastOf(last) == a + [line] + (b + LastOf(last));
    ItemsInsert(a, line, b + LastOf(last), decode);
  }

  lemma {:induction false} LinesOfTerminated(ls: seq<string>)
    requires forall l :: l in ls ==> '\n' !in l
    ensures RawLines(Unlines(ls)) == ls
  {
    LinesOfUnlines(ls, "");
    assert Unlines(ls) + "" == Unlines(ls) && ls + LastOf("") == ls;
  }

  lemma {:induction false} ItemsInsert<V>(a: seq<string>, line: string, b: seq<string>, decode: string -> Option<V>)
    ensures Items(a + [line] + b, decode) == Items(a, decode) + Worth(line, decode) + Items(b, decode)
  {
    ItemsAppend(a + [line], b, decode);
    ItemsAppend(a, [line], decode);
    assert Items([line], decode) == Worth(line, decode) + Items([], decode);
  }

  /** The same for the unterminated last line itself. */
  lemma {:induction false} LastLine<V>(a: seq<string>, last: string, decode: string -> Option<V>)
    requires (forall l :: l in a ==> '\n' !in l) && '\n' !in last
    ensures ReadAll(Unlines(a) + last, decode) == ReadAll(Unlines(a), decode) + Worth(last, decode)
  {
    LinesOfUnlines(a, last);
    LinesOfTerminated(a);
    if last == "" {
      TrimFacts(last);
      assert a + LastOf(last) == a;
    } else {
      assert a + LastOf(last) == a + [last] + [];
      ItemsInsert(a, last, [], decode);
    }
  }
}
