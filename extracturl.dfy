/** Extracturl (cmd/extracturl/main.go): the href values of the anchor
    start tags of a fetched HTML page, in document order. The fetch and the
    HTML tokenizer are foreign; the page is given as its token stream. */
module ExtractUrl {
  import opened Results
  import opened Seqs

  /** The token kinds of golang.org/x/net/html. */
  datatype TokenType = ErrorToken | TextToken | StartTagToken | EndTagToken | SelfClosingTagToken | CommentToken | DoctypeToken

  datatype Attribute = Attribute(key: string, val: string)

  datatype Token = Token(tokenType: TokenType, data: string, attrs: seq<Attribute>)

  /** The href values among `attrs`, in attribute order. */
  function Hrefs(attrs: seq<Attribute>): seq<string> {
    if attrs == [] then []
    else Hrefs(attrs[..|attrs| - 1]) + (if attrs[|attrs| - 1].key == "href" then [attrs[|attrs| - 1].val] else [])
  }

  /** Only start tags named "a" are read (main.go:51); a self-closing
      `<a/>` is a different token type. */
  predicate IsAnchor(t: Token) {
    t.tokenType == StartTagToken && t.data == "a"
  }

  /** What one token adds to the list. */
  function Contribution(t: Token): seq<string> {
    if IsAnchor(t) then Hrefs(t.attrs) else []
  }

  /** The tokens the loop reads: those before the first error token. At
      the end of the stream the tokenizer reports an error token, here the
      end of the sequence. */
  function BeforeError(tokens: seq<Token>): (r: seq<Token>)
    ensures |r| <= |tokens|
  {
    if tokens == [] || tokens[0].tokenType == ErrorToken then []
    else [tokens[0]] + BeforeError(tokens[1..])
  }

  /** The URLs the page yields. */
  function URLsOf(tokens: seq<Token>): seq<string> {
    FlatMap(BeforeError(tokens), Contribution)
  }

  predicate NoError(tokens: seq<Token>) {
    forall i :: 0 <= i < |tokens| ==> tokens[i].tokenType != ErrorToken
  }

  /** The loop over the attributes of an anchor (main.go:52-56). */
  method AppendHrefs(urls: seq<string>, attrs: seq<Attribute>) returns (r: seq<string>)
    ensures r == urls + Hrefs(attrs)
  {
    r := urls;
    for k := 0 to |attrs|
      invariant r == urls + Hrefs(attrs[..k])
    {
      assert attrs[..k + 1][..k] == attrs[..k];
      if attrs[k].key == "href" {
        r := r + [attrs[k].val];
      }
    }
    assert attrs[..|attrs|] == attrs;
  }

  /** extractURLs (main.go:32-61) after http.Get: a fetch error is
      returned with no URLs; otherwise the tokens are read until the first
      error token and the URLs returned without an error, whatever error
      ended the tokens. */
  method ExtractURLs(fetched: Result<seq<Token>, string>) returns (urls: seq<string>, err: Option<string>)
    ensures fetched.Err? ==> urls == [] && err == Some(fetched.error)
    ensures fetched.Ok? ==> err == None && urls == URLsOf(fetched.value)
  {
    if fetched.Err? {
      return [], Some(fetched.error);
    }
    var tokens := fetched.value;
    urls := [];
    var i := 0;
    while i < |tokens| && tokens[i].tokenType != ErrorToken
      invariant 0 <= i <= |tokens|
      invariant NoError(tokens[..i])
      invariant urls == FlatMap(tokens[..i], Contribution)
    {
      var token := tokens[i];
      assert tokens[..i + 1][..i] == tokens[..i];
      if token.tokenType == StartTagToken && token.data == "a" {
        urls := AppendHrefs(urls, token.attrs);
      }
      i := i + 1;
    }
    BeforeErrorAt(tokens, i);
    err := None;
  }

  /** The tokens read are exactly those up to the first error token. */
  lemma {:induction false} BeforeErrorAt(tokens: seq<Token>, i: nat)
    requires i <= |tokens| && NoError(tokens[..i])
    requires i == |tokens| || tokens[i].tokenType == ErrorToken
    ensures BeforeError(tokens) == tokens[..i]
  {
    if i > 0 {
      assert tokens[..i][0] == tokens[0];
      assert tokens[1..][..i - 1] == tokens[1..i];
      assert forall k :: 0 <= k < i - 1 ==> tokens[1..i][k] == tokens[..i][k + 1];
      BeforeErrorAt(tokens[1..], i - 1);
      assert tokens[..i] == [tokens[0]] + tokens[1..i];
    }
  }

  /** Nothing after the first error token counts. */
  lemma AfterErrorIgnored(read: seq<Token>, error: Token, rest: seq<Token>)
    requires NoError(read) && error.tokenType == ErrorToken
    ensures URLsOf(read + [error] + rest) == FlatMap(read, Contribution)
  {
    var tokens := read + [error] + rest;
    assert tokens[..|read|] == read;
    BeforeErrorAt(tokens, |read|);
  }

  /** A href value is among the attributes of a tag with that value. */
  lemma {:induction false} HrefsMembers(attrs: seq<Attribute>, u: string)
    ensures u in Hrefs(attrs) <==> exists j :: 0 <= j < |attrs| && attrs[j] == Attribute("href", u)
  {
    if attrs != [] {
      var init := attrs[..|attrs| - 1];
      HrefsMembers(init, u);
      assert forall j :: 0 <= j < |init| ==> init[j] == attrs[j];
      if u !in Hrefs(init) && u in Hrefs(attrs) {
        assert attrs[|attrs| - 1] == Attribute("href", u);
      }
    }
  }

  /** A URL comes from an href attribute of an anchor start tag. */
  lemma {:induction false} URLsMembers(tokens: seq<Token>, u: string)
    ensures u in FlatMap(tokens, Contribution) <==>
      exists i, j :: 0 <= i < |tokens| && IsAnchor(tokens[i]) && 0 <= j < |tokens[i].attrs| && tokens[i].attrs[j] == Attribute("href", u)
  {
    if tokens != [] {
      var init := tokens[..|tokens| - 1];
      var last := tokens[|tokens| - 1];
      URLsMembers(init, u);
      HrefsMembers(last.attrs, u);
      assert forall i :: 0 <= i < |init| ==> init[i] == tokens[i];
    }
  }

  /** Tokens other than anchor start tags, self-closing anchors among them,
      add nothing. */
  lemma {:induction false} NoAnchorNoURLs(tokens: seq<Token>)
    requires forall i :: 0 <= i < |tokens| ==> !IsAnchor(tokens[i])
    ensures FlatMap(tokens, Contribution) == []
  {
    if tokens != [] {
      var init := tokens[..|tokens| - 1];
      assert forall i :: 0 <= i < |init| ==> init[i] == tokens[i];
      NoAnchorNoURLs(init);
    }
  }
}
