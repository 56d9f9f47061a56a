/** Building a request path with a query string, and reading it back. */
module QueryPath {
  import opened Common
  import opened Split
  import P = PercentEncoding

  datatype Param = Param(key: string, value: string)

  function Field(p: Param): string {
    p.key + "=" + P.Encode(p.value)
  }

  function Fields(params: seq<Param>): (r: seq<string>)
    ensures |r| == |params| && forall i :: 0 <= i < |r| ==> r[i] == Field(params[i])
  {
    if params == [] then [] else [Field(params[0])] + Fields(params[1..])
  }

  /** `build_path`. */
  function BuildPath(base: string, params: seq<Param>): string {
    if params == [] then base else base + "?" + Join(Fields(params), '&')
  }

  // ---------------------------------------------------------------- the other way

  function ParseField(f: string): (r: Option<Param>)
    ensures r.Some? ==> '=' !in r.value.key && forall c :: c in r.value.key ==> c in f
  {
    var i := IndexOf(f, '=');
    if i == |f| then None
    else
      var v := P.DecodeValue(f[i + 1..]);
      if v.None? then None else Some(Param(f[..i], v.value))
  }

  function ParseFields(fs: seq<string>): (r: Option<seq<Param>>)
    ensures r.Some? ==> |r.value| == |fs| && forall i :: 0 <= i < |fs| ==> ParseField(fs[i]) == Some(r.value[i])
  {
    if fs == [] then Some([])
    else
      var first, rest := ParseField(fs[0]), ParseFields(fs[1..]);
      if first.None? || rest.None? then None else Some([first.value] + rest.value)
  }

  datatype Parsed = Parsed(base: string, params: seq<Param>)

  /** Split at the first `?`, then at `&`, then at the first `=`, and percent-decode the values. */
  function ParsePath(path: string): (r: Option<Parsed>)
    ensures r.Some? ==> '?' !in r.value.base
    ensures r.Some? ==> forall p :: p in r.value.params ==> '=' !in p.key && '&' !in p.key
  {
    var i := IndexOf(path, '?');
    if i == |path| then
      assert path[..i] == path;
      Some(Parsed(path, []))
    else
      var fields := SplitOn(path[i + 1..], '&');
      var params := ParseFields(fields);
      if params.None? then None
      else
        assert forall k :: 0 <= k < |fields| ==> '&' !in fields[k] && ParseField(fields[k]) == Some(params.value[k]);
        Some(Parsed(path[..i], params.value))
  }

  /** The keys a reader can tell apart from the query syntax. */
  predicate PlainKey(p: Param) {
    '=' !in p.key && '&' !in p.key
  }

  lemma {:induction false} FieldRoundTrip(p: Param)
    requires PlainKey(p)
    ensures ParseField(Field(p)) == Some(p) && '&' !in Field(p)
  {
    var value := P.Encode(p.value);
    P.EncodedIsSafe(p.value);
    P.SafeTextAvoids(value, '&');
    IndexOfConcat(p.key, '=', value);
    var f := p.key + "=" + value;
    assert f[..|p.key|] == p.key && f[|p.key| + 1..] == value;
    P.EncodeRoundTrip(p.value);
  }

  lemma {:induction false} FieldsRoundTrip(params: seq<Param>)
    requires forall p :: p in params ==> PlainKey(p)
    ensures ParseFields(Fields(params)) == Some(params)
    ensures forall f :: f in Fields(params) ==> '&' !in f
  {
    if params != [] {
      FieldRoundTrip(params[0]);
      FieldsRoundTrip(params[1..]);
      assert Fields(params)[1..] == Fields(params[1..]);
      assert params == [params[0]] + params[1..];
    }
  }

  /**
   Reading back what `build_path` wrote recovers the base and every parameter exactly when the
   base has no `?` and no key contains `&` or `=`; the values may be anything.
   */
  lemma {:induction false} BuildPathRoundTrip(base: string, params: seq<Param>)
    ensures ParsePath(BuildPath(base, params)) == Some(Parsed(base, params)) <==>
            '?' !in base && forall p :: p in params ==> PlainKey(p)
  {
    if '?' !in base && forall p :: p in params ==> PlainKey(p) {
      if params == [] {
        assert IndexOf(base, '?') == |base|;
      } else {
        var query := Join(Fields(params), '&');
        var path := base + "?" + query;
        IndexOfConcat(base, '?', query);
        assert path[..|base|] == base && path[|base| + 1..] == query;
        FieldsRoundTrip(params);
        SplitOfJoin(Fields(params), '&');
      }
    }
  }
}
