/**
Federation settings, checked by internal/config/options.go:177-237 and parsed again by
cmd/balemoh/main.go:232-250.
*/
module Federation {
  import opened Wrappers
  import opened Sets
  import opened Strings

  // `kubernetes` and `container` hold the source ID of an enabled local source.
  datatype Options =
    Options(allowed: seq<string>, tokens: seq<string>, kubernetes: Option<string>, container: Option<string>)

  datatype SourceRef = SourceRef(kind: string, id: string)

  // ---- the validator ----

  function ParseSource(raw: string): (r: Option<string>)
    ensures r.Some? ==> r.value == Trim(raw)
  {
    var source := Trim(raw);
    var parts := Cut(source, '/');
    if source == "" || parts == None || Trim(parts.value.0) == "" || Trim(parts.value.1) == ""
       || Trim(parts.value.0) != parts.value.0 || Trim(parts.value.1) != parts.value.1
       || '\0' in parts.value.0 || '\0' in parts.value.1 || '=' in parts.value.0 || '=' in parts.value.1
    then None
    else Some(parts.value.0 + "/" + parts.value.1)
  }

  // The source a token is for, if the token is well formed.
  function TokenSource(raw: string): Option<string> {
    var parts := Cut(Trim(raw), '=');
    if parts == None || Trim(parts.value.1) == "" then None else ParseSource(parts.value.0)
  }

  function LocalSources(o: Options): set<string> {
    (if o.kubernetes.Some? then {"kubernetes/" + Trim(o.kubernetes.value)} else {})
    + (if o.container.Some? then {"container/" + Trim(o.container.value)} else {})
  }

  // All texts read, and no two give the same source.
  predicate Distinct(texts: seq<string>, read: string -> Option<string>) {
    && (forall i :: 0 <= i < |texts| ==> read(texts[i]).Some?)
    && (forall i, j :: 0 <= i < j < |texts| ==> read(texts[i]) != read(texts[j]))
  }

  function Sources(texts: seq<string>, read: string -> Option<string>): set<string> {
    set i | 0 <= i < |texts| && read(texts[i]).Some? :: read(texts[i]).value
  }

  predicate Accepted(o: Options) {
    && Distinct(o.allowed, ParseSource)
    && |o.tokens| == |o.allowed|
    && Distinct(o.tokens, TokenSource)
    && Sources(o.tokens, TokenSource) <= Sources(o.allowed, ParseSource)
    && Sources(o.allowed, ParseSource) !! LocalSources(o)
  }

  lemma NextText(texts: seq<string>, read: string -> Option<string>, k: nat)
    requires k < |texts| && Distinct(texts[..k], read)
    ensures Distinct(texts, read) ==> read(texts[k]).Some? && read(texts[k]).value !in Sources(texts[..k], read)
    ensures read(texts[k]).Some? ==>
              Sources(texts[..k + 1], read) == Sources(texts[..k], read) + {read(texts[k]).value}
    ensures read(texts[k]).Some? && read(texts[k]).value !in Sources(texts[..k], read) ==> Distinct(texts[..k + 1], read)
    ensures read(texts[k]).Some? ==> read(texts[k]).value in Sources(texts, read)
  {
    var front, next := texts[..k], texts[..k + 1];
    assert forall i :: 0 <= i < k ==> front[i] == texts[i] == next[i];
    if read(texts[k]).Some? {
      forall s ensures s in Sources(next, read) <==> s in Sources(front, read) + {read(texts[k]).value} {
        if s in Sources(front, read) {
          var i :| 0 <= i < k && read(front[i]).Some? && read(front[i]).value == s;
          assert read(next[i]).value == s;
        }
        assert next[k] == texts[k];
      }
      if read(texts[k]).value !in Sources(front, read) {
        forall i | 0 <= i < k ensures read(next[i]) != read(next[k]) {
          assert read(front[i]).value in Sources(front, read);
        }
      }
    }
  }

  method ReadAllowed(o: Options) returns (allowed: Option<set<string>>)
    ensures allowed.Some? <==> Distinct(o.allowed, ParseSource)
    ensures allowed.Some? ==> allowed.value == Sources(o.allowed, ParseSource)
  {
    var sources: set<string> := {};
    for k := 0 to |o.allowed|
      invariant Distinct(o.allowed[..k], ParseSource) && sources == Sources(o.allowed[..k], ParseSource)
    {
      NextText(o.allowed, ParseSource, k);
      var source := ParseSource(o.allowed[k]);
      if source == None || source.value in sources { return None; }
      sources := sources + {source.value};
    }
    assert o.allowed[..|o.allowed|] == o.allowed;
    return Some(sources);
  }

  method CheckTokens(o: Options, allowed: set<string>) returns (ok: bool)
    ensures ok <==> Distinct(o.tokens, TokenSource) && Sources(o.tokens, TokenSource) <= allowed
  {
    var seen: set<string> := {};
    for k := 0 to |o.tokens|
      invariant Distinct(o.tokens[..k], TokenSource) && seen == Sources(o.tokens[..k], TokenSource) <= allowed
    {
      NextText(o.tokens, TokenSource, k);
      var parts := Cut(Trim(o.tokens[k]), '=');
      if parts == None || Trim(parts.value.1) == "" { return false; }
      var source := ParseSource(parts.value.0);
      if source == None || source.value !in allowed || source.value in seen { return false; }
      seen := seen + {source.value};
    }
    assert o.tokens[..|o.tokens|] == o.tokens;
    return true;
  }

  method Validate(o: Options) returns (ok: bool)
    ensures ok <==> Accepted(o)
  {
    var allowed := ReadAllowed(o);
    if allowed == None { return false; }
    CountSources(o.allowed, ParseSource);
    if |o.tokens| != |allowed.value| {
      if |allowed.value| == 0 {
        if |o.tokens| > 0 { return false; }
      } else {
        return false;
      }
    }
    var tokens := CheckTokens(o, allowed.value);
    if !tokens { return false; }
    var local: set<string> := {};
    if o.kubernetes.Some? { local := local + {"kubernetes/" + Trim(o.kubernetes.value)}; }
    if o.container.Some? { local := local + {"container/" + Trim(o.container.value)}; }
    var rest := allowed.value;
    while rest != {}
      invariant rest <= allowed.value && (allowed.value - rest) !! local
    {
      var source :| source in rest;
      if source in local { return false; }
      rest := rest - {source};
    }
    return true;
  }

  // ---- counting ----

  lemma {:induction false} CountSources(texts: seq<string>, read: string -> Option<string>)
    requires Distinct(texts, read)
    ensures |Sources(texts, read)| == |texts|
  {
    if texts != [] {
      var k := |texts| - 1;
      CountSources(texts[..k], read);
      NextText(texts, read, k);
      assert texts[..k + 1] == texts;
    } else {
      assert Sources(texts, read) == {};
    }
  }

  // Tokens name exactly the allowed sources, though only inclusion and the count are checked.
  lemma TokensCoverAllowed(o: Options)
    requires Accepted(o)
    ensures Sources(o.tokens, TokenSource) == Sources(o.allowed, ParseSource)
  {
    CountSources(o.allowed, ParseSource);
    CountSources(o.tokens, TokenSource);
    EqualBySize(Sources(o.tokens, TokenSource), Sources(o.allowed, ParseSource));
  }

  // ---- the second parser ----

  function ParseToken(raw: string): Option<(SourceRef, string)> {
    var parts := Cut(Trim(raw), '=');
    if parts == None then None
    else
      var source := Cut(Trim(parts.value.0), '/');
      if source == None || Trim(source.value.0) == "" || Trim(source.value.1) == "" || Trim(parts.value.1) == "" then None
      else Some((SourceRef(Trim(source.value.0), Trim(source.value.1)), Trim(parts.value.1)))
  }

  type TokenReader = string -> Option<(SourceRef, string)>

  predicate Readable(tokens: seq<string>, read: TokenReader) {
    && (forall i :: 0 <= i < |tokens| ==> read(tokens[i]).Some?)
    && (forall i, j :: 0 <= i < j < |tokens| ==> read(tokens[i]).value.0 != read(tokens[j]).value.0)
  }

  // One key for each token, with its secret.
  function TokenMap(tokens: seq<string>, read: TokenReader): map<SourceRef, string>
    requires forall i :: 0 <= i < |tokens| ==> read(tokens[i]).Some?
  {
    if tokens == [] then map[]
    else
      var (source, secret) := read(tokens[|tokens| - 1]).value;
      TokenMap(tokens[..|tokens| - 1], read)[source := secret]
  }

  lemma {:induction false} KeysAreTokens(tokens: seq<string>, read: TokenReader, source: SourceRef)
    requires Readable(tokens, read) && source in TokenMap(tokens, read)
    ensures IsKey(tokens, read, source)
  {
    var k := |tokens| - 1;
    var front := tokens[..k];
    if source in TokenMap(front, read) {
      KeysAreTokens(front, read, source);
      var i :| 0 <= i < k && read(front[i]).Some? && read(front[i]).value.0 == source;
      assert read(tokens[i]).value.0 == source;
    }
  }

  lemma LastTokenIsNew(tokens: seq<string>, read: TokenReader)
    requires Readable(tokens, read) && tokens != []
    ensures var k := |tokens| - 1;
            Readable(tokens[..k], read) && read(tokens[k]).value.0 !in TokenMap(tokens[..k], read)
  {
    var k := |tokens| - 1;
    var front, source := tokens[..k], read(tokens[k]).value.0;
    assert forall i :: 0 <= i < k ==> front[i] == tokens[i];
    assert !IsKey(front, read, source);
    if source in TokenMap(front, read) { KeysAreTokens(front, read, source); }
  }

  lemma {:induction false} TokensAreKeys(tokens: seq<string>, read: TokenReader, i: nat)
    requires Readable(tokens, read) && i < |tokens|
    ensures var (source, secret) := read(tokens[i]).value;
            source in TokenMap(tokens, read) && TokenMap(tokens, read)[source] == secret
  {
    var k := |tokens| - 1;
    if i < k {
      assert tokens[..k][i] == tokens[i];
      TokensAreKeys(tokens[..k], read, i);
    }
  }

  lemma {:induction false} TokenMapSize(tokens: seq<string>, read: TokenReader)
    requires Readable(tokens, read)
    ensures |TokenMap(tokens, read)| == |tokens|
  {
    if tokens != [] {
      var k := |tokens| - 1;
      LastTokenIsNew(tokens, read);
      TokenMapSize(tokens[..k], read);
    }
  }

  ghost predicate IsKey(tokens: seq<string>, read: TokenReader, source: SourceRef) {
    exists i :: 0 <= i < |tokens| && read(tokens[i]).Some? && read(tokens[i]).value.0 == source
  }

  method ConfiguredTokens(o: Options) returns (r: Option<map<SourceRef, string>>)
    ensures r.Some? <==> Readable(o.tokens, ParseToken)
    ensures r.Some? ==> r.value == TokenMap(o.tokens, ParseToken)
  {
    var tokens: map<SourceRef, string> := map[];
    for k := 0 to |o.tokens|
      invariant Readable(o.tokens[..k], ParseToken) && tokens == TokenMap(o.tokens[..k], ParseToken)
    {
      var raw := o.tokens[k];
      var parts := Cut(Trim(raw), '=');
      if parts == None { return None; }
      var sourceParts := Cut(Trim(parts.value.0), '/');
      if sourceParts == None || Trim(sourceParts.value.0) == "" || Trim(sourceParts.value.1) == "" || Trim(parts.value.1) == "" {
        return None;
      }
      var source := SourceRef(Trim(sourceParts.value.0), Trim(sourceParts.value.1));
      assert ParseToken(raw) == Some((source, Trim(parts.value.1)));
      NextToken(o.tokens, ParseToken, k);
      if source in tokens { return None; }
      tokens := tokens[source := Trim(parts.value.1)];
    }
    assert o.tokens[..|o.tokens|] == o.tokens;
    return Some(tokens);
  }

  lemma NextToken(tokens: seq<string>, read: TokenReader, k: nat)
    requires k < |tokens| && Readable(tokens[..k], read) && read(tokens[k]).Some?
    ensures var source := read(tokens[k]).value.0;
            if source in TokenMap(tokens[..k], read) then !Readable(tokens, read) else Readable(tokens[..k + 1], read)
    ensures Readable(tokens[..k + 1], read) ==>
              var (source, secret) := read(tokens[k]).value;
              TokenMap(tokens[..k + 1], read) == TokenMap(tokens[..k], read)[source := secret]
  {
    var front, next := tokens[..k], tokens[..k + 1];
    var source := read(tokens[k]).value.0;
    assert next[..k] == front && next[k] == tokens[k];
    assert forall i :: 0 <= i < k ==> front[i] == tokens[i] == next[i];
    if source in TokenMap(front, read) {
      KeysAreTokens(front, read, source);
      var i :| 0 <= i < k && read(front[i]).Some? && read(front[i]).value.0 == source;
      assert read(tokens[i]).value.0 == source;
    } else {
      forall i | 0 <= i < k ensures read(next[i]).value.0 != source { TokensAreKeys(front, read, i); }
    }
  }

  // ---- how sources and tokens are written ----

  function Text(source: SourceRef): string { source.kind + "/" + source.id }

  predicate Names(source: SourceRef) {
    && Bare(source.kind) && Bare(source.id) && '/' !in source.kind
    && '\0' !in source.kind && '\0' !in source.id && '=' !in source.kind && '=' !in source.id
  }

  // A source and a token with its secret, with blanks where they may stand.
  ghost predicate SourceWritten(raw: string, source: SourceRef) {
    Names(source) && exists a, b :: Blank(a) && Blank(b) && raw == a + Text(source) + b
  }

  ghost predicate TokenWritten(raw: string, source: SourceRef, secret: string) {
    Bare(secret) && exists left, a, b :: SourceWritten(left, source) && Blank(a) && Blank(b) && raw == left + "=" + (a + secret + b)
  }

  lemma SourceIsRead(raw: string, source: SourceRef)
    requires SourceWritten(raw, source)
    ensures ParseSource(raw) == Some(Text(source))
  {
    var a, b :| Blank(a) && Blank(b) && raw == a + Text(source) + b;
    TextIsBare(source);
    TrimOf(a, Text(source), b);
  }

  lemma TrimmedIsBare(s: string)
    requires Trim(s) == s != ""
    ensures Bare(s)
  {
    var _, _ := TrimSplits(s);
  }

  lemma SourceParts(raw: string) returns (source: SourceRef)
    requires ParseSource(raw).Some?
    ensures Names(source) && Trim(raw) == Text(source) == ParseSource(raw).value
  {
    var parts := Cut(Trim(raw), '/').value;
    source := SourceRef(parts.0, parts.1);
    TrimmedIsBare(source.kind);
    TrimmedIsBare(source.id);
  }

  lemma SourceStands(raw: string) returns (source: SourceRef)
    requires ParseSource(raw).Some?
    ensures SourceWritten(raw, source) && Text(source) == ParseSource(raw).value
  {
    source := SourceParts(raw);
    var a, b := TrimSplits(raw);
  }

  // A text is read as a source exactly when one is written there, and then as that one.
  lemma SourceIsWritten(raw: string)
    ensures ParseSource(raw).Some? <==> exists source :: SourceWritten(raw, source)
    ensures forall source :: SourceWritten(raw, source) ==> ParseSource(raw) == Some(Text(source))
  {
    forall source | SourceWritten(raw, source) ensures ParseSource(raw) == Some(Text(source)) { SourceIsRead(raw, source); }
    if ParseSource(raw).Some? { var source := SourceStands(raw); }
  }

  // The two parts of a token, the left one with what blanks follow it.
  lemma TokenSplits(raw: string, left: string, c: string, text: string, d: string, a: string, secret: string, b: string)
    requires Blank(a) && Blank(b) && Blank(c) && Blank(d) && Bare(text) && Bare(secret) && '=' !in text
    requires left == c + text + d && raw == left + "=" + (a + secret + b)
    ensures Cut(Trim(raw), '=') == Some((text + d, a + secret))
  {
    var middle := text + d + "=" + (a + secret);
    assert raw == c + middle + b;
    assert middle[0] == text[0] && middle[|middle| - 1] == secret[|secret| - 1];
    TrimOf(c, middle, b);
    assert !IsSpace('=');
    CutIsFirst(middle, '=', text + d, a + secret);
  }

  lemma TrimOfLeft(s: string, b: string)
    requires Bare(s) && Blank(b)
    ensures Trim(s + b) == s
  {
    assert "" + s + b == s + b;
    TrimOf("", s, b);
  }

  lemma TrimOfRight(a: string, s: string)
    requires Bare(s) && Blank(a)
    ensures Trim(a + s) == s
  {
    assert a + s + "" == a + s;
    TrimOf(a, s, "");
  }

  lemma TextIsBare(source: SourceRef)
    requires Names(source)
    ensures Bare(Text(source)) && '=' !in Text(source)
    ensures Cut(Text(source), '/') == Some((source.kind, source.id)) && Trim(source.kind) == source.kind && Trim(source.id) == source.id
  {
    var text := Text(source);
    assert text[0] == source.kind[0] && text[|text| - 1] == source.id[|source.id| - 1];
    CutIsFirst(text, '/', source.kind, source.id);
    assert source.kind + "" == source.kind && source.id + "" == source.id;
    TrimOfLeft(source.kind, "");
    TrimOfLeft(source.id, "");
  }

  lemma PartsAreRead(raw: string, l: string, r: string, source: SourceRef, secret: string)
    requires Cut(Trim(raw), '=') == Some((l, r)) && Trim(r) == secret != ""
    requires Names(source) && Trim(l) == Text(source) && ParseSource(l) == Some(Text(source))
    ensures TokenSource(raw) == Some(Text(source)) && ParseToken(raw) == Some((source, secret))
  {
    TextIsBare(source);
  }

  lemma SourceBeforeBlanks(source: SourceRef, d: string)
    requires Names(source) && Blank(d)
    ensures Trim(Text(source) + d) == Text(source) && ParseSource(Text(source) + d) == Some(Text(source))
  {
    TextIsBare(source);
    TrimOfLeft(Text(source), d);
    assert "" + Text(source) + d == Text(source) + d;
    SourceIsRead(Text(source) + d, source);
  }

  lemma PartsOfToken(raw: string, left: string, source: SourceRef, a: string, secret: string, b: string) returns (l: string, r: string)
    requires SourceWritten(left, source) && Bare(secret) && Blank(a) && Blank(b) && raw == left + "=" + (a + secret + b)
    ensures Cut(Trim(raw), '=') == Some((l, r)) && Trim(r) == secret
    ensures Trim(l) == Text(source) && ParseSource(l) == Some(Text(source))
  {
    var c, d :| Blank(c) && Blank(d) && left == c + Text(source) + d;
    l, r := Text(source) + d, a + secret;
    TextIsBare(source);
    TokenSplits(raw, left, c, Text(source), d, a, secret, b);
    TrimOfRight(a, secret);
    SourceBeforeBlanks(source, d);
  }

  lemma TokenIsRead(raw: string, source: SourceRef, secret: string)
    requires TokenWritten(raw, source, secret)
    ensures TokenSource(raw) == Some(Text(source)) && ParseToken(raw) == Some((source, secret))
  {
    var left, a, b :| SourceWritten(left, source) && Blank(a) && Blank(b) && raw == left + "=" + (a + secret + b);
    var l, r := PartsOfToken(raw, left, source, a, secret, b);
    PartsAreRead(raw, l, r, source, secret);
  }

  lemma PaddedSource(l: string, c: string, source: SourceRef)
    requires SourceWritten(l, source) && Blank(c)
    ensures SourceWritten(c + l, source)
  {
    var a, b :| Blank(a) && Blank(b) && l == a + Text(source) + b;
    assert c + l == (c + a) + Text(source) + b && Blank(c + a);
  }

  lemma PaddedToken(raw: string, c: string, t: string, d: string, l: string, r: string, e: string, secret: string, f: string, source: SourceRef)
    requires raw == c + t + d && t == l + "=" + r && r == e + secret + f
    requires Blank(c) && Blank(d) && Blank(e) && Blank(f) && Bare(secret) && SourceWritten(l, source)
    ensures TokenWritten(raw, source, secret)
  {
    PaddedSource(l, c, source);
    assert raw == (c + l) + "=" + (e + secret + (f + d)) && Blank(f + d);
  }

  lemma TokenParts(raw: string) returns (l: string, r: string)
    requires TokenSource(raw).Some?
    ensures Trim(raw) == l + "=" + r && Trim(r) != "" && ParseSource(l).Some?
  {
    var parts := Cut(Trim(raw), '=').value;
    l, r := parts.0, parts.1;
  }

  lemma TokenStands(raw: string) returns (source: SourceRef, secret: string)
    requires TokenSource(raw).Some?
    ensures TokenWritten(raw, source, secret)
  {
    var l, r := TokenParts(raw);
    source := SourceStands(l);
    var c, d := TrimSplits(raw);
    var e, f := TrimSplits(r);
    secret := Trim(r);
    PaddedToken(raw, c, Trim(raw), d, l, r, e, secret, f, source);
  }

  // A token is accepted exactly when it is written so, and both readers find its source and secret.
  lemma TokenIsWritten(raw: string)
    ensures TokenSource(raw).Some? <==> exists source, secret :: TokenWritten(raw, source, secret)
    ensures forall source, secret :: TokenWritten(raw, source, secret) ==>
              TokenSource(raw) == Some(Text(source)) && ParseToken(raw) == Some((source, secret))
  {
    forall source, secret | TokenWritten(raw, source, secret)
      ensures TokenSource(raw) == Some(Text(source)) && ParseToken(raw) == Some((source, secret))
    {
      TokenIsRead(raw, source, secret);
    }
    if TokenSource(raw).Some? { var source, secret := TokenStands(raw); }
  }

  // Each source of accepted settings is configured with the secret written after it.
  lemma SecretsAreConfigured(o: Options, i: nat) returns (source: SourceRef, secret: string)
    requires Accepted(o) && i < |o.tokens|
    ensures TokenWritten(o.tokens[i], source, secret)
    ensures source in TokenMap(o.tokens, ParseToken) && TokenMap(o.tokens, ParseToken)[source] == secret
  {
    AcceptedTokensAreConfigured(o);
    source, secret := TokenStands(o.tokens[i]);
    TokenIsRead(o.tokens[i], source, secret);
    TokensAreKeys(o.tokens, ParseToken, i);
  }

  // ---- the two agree ----

  // A token the validator can read is read as the same source by the second parser.
  lemma SameSource(raw: string)
    requires TokenSource(raw).Some?
    ensures ParseToken(raw).Some? && Text(ParseToken(raw).value.0) == TokenSource(raw).value
  { }

  // Whatever Validate accepts the second parser reads, with one key for each allowed source and
  // none that is an enabled local source.
  lemma AcceptedTokensAreConfigured(o: Options)
    requires Accepted(o)
    ensures Readable(o.tokens, ParseToken)
    ensures var m := TokenMap(o.tokens, ParseToken);
            && (set source <- m :: Text(source)) == Sources(o.allowed, ParseSource)
            && (forall source <- m :: Text(source) !in LocalSources(o))
            && |m| == |o.allowed|
  {
    forall raw | TokenSource(raw).Some?
      ensures ParseToken(raw).Some? && Text(ParseToken(raw).value.0) == TokenSource(raw).value
    {
      SameSource(raw);
    }
    ReadersAgree(o.tokens, TokenSource, ParseToken);
    TokensCoverAllowed(o);
    var m := TokenMap(o.tokens, ParseToken);
    forall source | source in m ensures Text(source) !in LocalSources(o) {
      assert Text(source) in set s <- m :: Text(s);
    }
  }

  // The second reader gives the parts of what the first gives.
  ghost predicate Refines(second: TokenReader, first: string -> Option<string>) {
    forall raw :: first(raw).Some? ==> second(raw).Some? && Text(second(raw).value.0) == first(raw).value
  }

  lemma RefinedIsReadable(tokens: seq<string>, first: string -> Option<string>, second: TokenReader)
    requires Distinct(tokens, first) && Refines(second, first)
    ensures Readable(tokens, second)
  {
    assert forall i :: 0 <= i < |tokens| ==> first(tokens[i]).Some?;
  }

  lemma KeyIsSource(tokens: seq<string>, first: string -> Option<string>, second: TokenReader, source: SourceRef)
    requires Distinct(tokens, first) && Refines(second, first) && Readable(tokens, second)
    requires source in TokenMap(tokens, second)
    ensures Text(source) in Sources(tokens, first)
  {
    KeysAreTokens(tokens, second, source);
    var i :| 0 <= i < |tokens| && second(tokens[i]).Some? && second(tokens[i]).value.0 == source;
    assert first(tokens[i]).value == Text(source);
  }

  lemma SourceIsKey(tokens: seq<string>, first: string -> Option<string>, second: TokenReader, s: string) returns (source: SourceRef)
    requires Refines(second, first) && Readable(tokens, second) && s in Sources(tokens, first)
    ensures source in TokenMap(tokens, second) && Text(source) == s
  {
    var i :| 0 <= i < |tokens| && first(tokens[i]).Some? && first(tokens[i]).value == s;
    source := second(tokens[i]).value.0;
    TokensAreKeys(tokens, second, i);
  }

  lemma ReadersAgree(tokens: seq<string>, first: string -> Option<string>, second: TokenReader)
    requires Distinct(tokens, first) && Refines(second, first)
    ensures Readable(tokens, second) && |TokenMap(tokens, second)| == |tokens|
    ensures (set source <- TokenMap(tokens, second) :: Text(source)) == Sources(tokens, first)
  {
    RefinedIsReadable(tokens, first, second);
    TokenMapSize(tokens, second);
    var m := TokenMap(tokens, second);
    forall source | source in m ensures Text(source) in Sources(tokens, first) {
      KeyIsSource(tokens, first, second, source);
    }
    forall s | s in Sources(tokens, first) ensures s in set source <- m :: Text(source) {
      var source := SourceIsKey(tokens, first, second, s);
    }
  }
}
