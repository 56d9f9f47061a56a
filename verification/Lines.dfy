/** Lines of a text file and the trimming of white space. */
module Lines {
  import opened Split

  /** The Unicode White_Space property. */
  predicate IsWhitespace(c: char) {
    var v := c as int;
    0x09 <= v <= 0x0D || v == 0x20 || v == 0x85 || v == 0xA0 || v == 0x1680
    || 0x2000 <= v <= 0x200A || v == 0x2028 || v == 0x2029 || v == 0x202F || v == 0x205F || v == 0x3000
  }

  /** The lines of a text without their newlines; a last line need not be terminated. */
  function RawLines(text: string): (ls: seq<string>)
    ensures forall l :: l in ls ==> '\n' !in l
    decreases |text|
  {
    if text == [] then []
    else
      var i := IndexOf(text, '\n');
      if i == |text| then
        assert text[..i] == text;
        [text]
      else [text[..i]] + RawLines(text[i + 1..])
  }

  lemma {:induction false} RawLinesCons(l: string, rest: string)
    requires '\n' !in l
    ensures RawLines(l + "\n" + rest) == [l] + RawLines(rest)
  {
    var text := l + "\n" + rest;
    IndexOfConcat(l, '\n', rest);
    assert text[..|l|] == l && text[|l| + 1..] == rest;
  }

  function TrimStart(s: string): string {
    if s != [] && IsWhitespace(s[0]) then TrimStart(s[1..]) else s
  }

  function TrimEnd(s: string): string {
    if s != [] && IsWhitespace(s[|s| - 1]) then TrimEnd(s[..|s| - 1]) else s
  }

  function Trim(s: string): string {
    TrimEnd(TrimStart(s))
  }

  /** Neither end is white space. */
  predicate IsTrimmed(s: string) {
    s == [] || (!IsWhitespace(s[0]) && !IsWhitespace(s[|s| - 1]))
  }

  lemma {:induction false} TrimStartFacts(s: string)
    ensures TrimStart(s) == [] || !IsWhitespace(TrimStart(s)[0])
    ensures forall c :: c in TrimStart(s) ==> c in s
  {
    if s != [] && IsWhitespace(s[0]) {
      TrimStartFacts(s[1..]);
    }
  }

  lemma {:induction false} TrimEndFacts(s: string)
    ensures TrimEnd(s) <= s
    ensures TrimEnd(s) == [] || !IsWhitespace(TrimEnd(s)[|TrimEnd(s)| - 1])
  {
    if s != [] && IsWhitespace(s[|s| - 1]) {
      TrimEndFacts(s[..|s| - 1]);
    }
  }

  lemma {:induction false} TrimFacts(s: string)
    ensures IsTrimmed(Trim(s))
    ensures forall c :: c in Trim(s) ==> c in s
    ensures IsTrimmed(s) ==> Trim(s) == s
  {
    TrimStartFacts(s);
    TrimEndFacts(TrimStart(s));
  }
}
