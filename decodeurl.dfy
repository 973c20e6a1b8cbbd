/** Decodeurl (decodeurl/decodeurl.go): the parts of a URL laid out one per
    line, the query parameters sorted by key. Parsing the URL (url.Parse and
    Query) is not part of this model: its parts are the input. */
module DecodeUrl {
  import opened Seqs
  import opened Strings
  import opened Sorting

  /** DecodedURL (decodeurl.go:12-19); the query maps each key to its
      values. */
  datatype DecodedURL = DecodedURL(scheme: string, host: string, path: string, query: map<string, seq<string>>)

  /** Go's string order as a "less or equal". */
  predicate LexLe(a: string, b: string) { !LexLess(b, a) }

  lemma LexLeTotal()
    ensures TotalPreorder(LexLe)
  {
    forall a, b ensures LexLe(a, b) || LexLe(b, a) {
      if a != b {
        LexLessTotal(a, b);
        if LexLess(a, b) && LexLess(b, a) {
          LexLessTransitive(a, b, a);
          LexLessIrreflexive(a);
        }
      } else {
        LexLessIrreflexive(a);
      }
    }
    forall a, b, c | LexLe(a, b) && LexLe(b, c) ensures LexLe(a, c) {
      if LexLess(c, a) && a != b {
        LexLessTotal(a, b);
        LexLessTransitive(c, a, b);
      }
    }
  }

  /** `keys` are the keys of `q`, each once, in ascending order. */
  ghost predicate SortedKeysOf(keys: seq<string>, q: map<string, seq<string>>) {
    && (forall k :: k in keys <==> k in q)
    && (forall i, j :: 0 <= i < j < |keys| ==> LexLess(keys[i], keys[j]))
  }

  /** One line of parseQuery (decodeurl.go:42): %s of a []string prints its
      elements between brackets, separated by spaces. */
  function Line(key: string, values: seq<string>): string {
    "\t" + key + " = [" + Join(values, " ") + "]"
  }

  /** The line of each key of `keys`, in order. */
  function Lines(keys: seq<string>, q: map<string, seq<string>>): (lines: seq<string>)
    requires forall i :: 0 <= i < |keys| ==> keys[i] in q
    ensures |lines| == |keys|
  {
    if keys == [] then []
    else Lines(keys[..|keys| - 1], q) + [Line(keys[|keys| - 1], q[keys[|keys| - 1]])]
  }

  /** Line `i` belongs to key `i`. */
  lemma {:induction false} LinesAt(keys: seq<string>, q: map<string, seq<string>>, i: nat)
    requires forall k :: 0 <= k < |keys| ==> keys[k] in q
    requires i < |keys|
    ensures Lines(keys, q)[i] == Line(keys[i], q[keys[i]])
  {
    if i < |keys| - 1 {
      var init := keys[..|keys| - 1];
      assert init[i] == keys[i];
      LinesAt(init, q, i);
    }
  }

  /** The lines for `keys`, joined by newlines. */
  function QueryOf(keys: seq<string>, q: map<string, seq<string>>): string
    requires forall i :: 0 <= i < |keys| ==> keys[i] in q
  {
    Join(Lines(keys, q), "\n")
  }

  /** The key loop of parseQuery (decodeurl.go:35-38): each key of the
      map once, in the order the map yields them. */
  method CollectKeys(q: map<string, seq<string>>) returns (keys: seq<string>)
    ensures forall k :: k in keys <==> k in q
    ensures forall i, j :: 0 <= i < j < |keys| ==> keys[i] != keys[j]
  {
    keys := [];
    var rest := q.Keys;
    while rest != {}
      invariant rest <= q.Keys
      invariant forall k :: k in keys <==> k in q.Keys - rest
      invariant forall i, j :: 0 <= i < j < |keys| ==> keys[i] != keys[j]
      decreases |rest|
    {
      var k :| k in rest;
      assert k !in keys;
      keys := keys + [k];
      rest := rest - {k};
    }
  }

  /** parseQuery (decodeurl.go:31-45): the keys collected from the map,
      sorted with sort.Strings, then one line each, joined by newlines. */
  method ParseQuery(q: map<string, seq<string>>) returns (output: string)
    ensures exists keys :: SortedKeysOf(keys, q) && output == QueryOf(keys, q)
  {
    var keys := CollectKeys(q);
    LexLeTotal();
    var sorted := SortBy(keys, LexLe);
    StrictlySorted(keys, sorted);
    assert SortedKeysOf(sorted, q);
    var lines := FormatLines(sorted, q);
    output := Join(lines, "\n");
  }

  /** The output loop of parseQuery (decodeurl.go:41-43). */
  method FormatLines(keys: seq<string>, q: map<string, seq<string>>) returns (lines: seq<string>)
    requires forall i :: 0 <= i < |keys| ==> keys[i] in q
    ensures lines == Lines(keys, q)
  {
    lines := [];
    for i := 0 to |keys|
      invariant lines == Lines(keys[..i], q)
    {
      assert keys[..i + 1][..i] == keys[..i];
      lines := lines + [Line(keys[i], q[keys[i]])];
    }
    assert keys[..|keys|] == keys;
  }

  /** Sorting distinct keys leaves them strictly ascending. */
  lemma StrictlySorted(keys: seq<string>, sorted: seq<string>)
    requires forall i, j :: 0 <= i < j < |keys| ==> keys[i] != keys[j]
    requires multiset(sorted) == multiset(keys) && SortedBy(sorted, LexLe)
    ensures forall k :: k in sorted <==> k in keys
    ensures forall i, j :: 0 <= i < j < |sorted| ==> LexLess(sorted[i], sorted[j])
  {
    forall k ensures k in sorted <==> k in keys {
      assert k in sorted <==> k in multiset(sorted);
      assert k in keys <==> k in multiset(keys);
    }
    DistinctCount(keys);
    forall i, j | 0 <= i < j < |sorted| ensures LexLess(sorted[i], sorted[j]) {
      if sorted[i] == sorted[j] {
        TwiceCount(sorted, i, j);
      }
      LexLessTotal(sorted[i], sorted[j]);
    }
  }

  lemma {:induction false} DistinctCount(s: seq<string>)
    requires forall i, j :: 0 <= i < j < |s| ==> s[i] != s[j]
    ensures forall x :: multiset(s)[x] <= 1
  {
    if s != [] {
      var init := s[..|s| - 1];
      assert forall i, j :: 0 <= i < j < |init| ==> init[i] != init[j] by {
        forall i, j | 0 <= i < j < |init| ensures init[i] != init[j] {
          assert init[i] == s[i] && init[j] == s[j];
        }
      }
      DistinctCount(init);
      assert s == init + [s[|s| - 1]];
      assert s[|s| - 1] !in init by {
        forall i | 0 <= i < |init| ensures init[i] != s[|s| - 1] {
          assert init[i] == s[i];
        }
      }
    }
  }

  lemma TwiceCount(s: seq<string>, i: nat, j: nat)
    requires i < j < |s| && s[i] == s[j]
    ensures multiset(s)[s[i]] >= 2
  {
    assert s == s[..i] + [s[i]] + s[i + 1..j] + [s[j]] + s[j + 1..];
  }

  /** The sorted keys of a map are unique, so parseQuery's output does not
      depend on the order in which the map yields its keys. */
  lemma {:induction false} SortedKeysUnique(a: seq<string>, b: seq<string>, q: map<string, seq<string>>)
    requires SortedKeysOf(a, q) && SortedKeysOf(b, q)
    ensures a == b
    decreases |a|
  {
    if a != [] && b != [] {
      SameFirst(a, b, q);
      var q' := map k | k in q && k != a[0] :: q[k];
      DropFirst(a, q, q');
      DropFirst(b, q, q');
      SortedKeysUnique(a[1..], b[1..], q');
      assert a == [a[0]] + a[1..] && b == [b[0]] + b[1..];
    } else {
      KeysOfEmpty(a, q);
      KeysOfEmpty(b, q);
    }
  }

  /** Only the empty map has no keys. */
  lemma KeysOfEmpty(a: seq<string>, q: map<string, seq<string>>)
    requires SortedKeysOf(a, q)
    ensures a == [] <==> q == map[]
  {
    if a != [] {
      assert a[0] in q;
    }
  }

  /** Both start with the least key. */
  lemma SameFirst(a: seq<string>, b: seq<string>, q: map<string, seq<string>>)
    requires SortedKeysOf(a, q) && SortedKeysOf(b, q) && a != [] && b != []
    ensures a[0] == b[0]
  {
    assert a[0] in b && b[0] in a;
    if a[0] != b[0] {
      var i :| 0 <= i < |b| && b[i] == a[0];
      var j :| 0 <= j < |a| && a[j] == b[0];
      assert LexLess(b[0], a[0]) && LexLess(a[0], b[0]);
      LexLessTransitive(a[0], b[0], a[0]);
      LexLessIrreflexive(a[0]);
    }
  }

  /** Without its least key, the rest are the sorted keys of the map
      without that key. */
  lemma DropFirst(a: seq<string>, q: map<string, seq<string>>, q': map<string, seq<string>>)
    requires SortedKeysOf(a, q) && a != []
    requires q' == map k | k in q && k != a[0] :: q[k]
    ensures SortedKeysOf(a[1..], q')
  {
    forall k ensures k in a[1..] <==> k in q' {
      if k in a[1..] {
        var i :| 0 <= i < |a[1..]| && a[1..][i] == k;
        assert LexLess(a[0], a[i + 1]);
        LexLessIrreflexive(a[0]);
      }
      if k in q' {
        var i :| 0 <= i < |a| && a[i] == k;
        assert a[1..][i - 1] == k;
      }
    }
    forall i, j | 0 <= i < j < |a[1..]| ensures LexLess(a[1..][i], a[1..][j]) {
      assert a[1..][i] == a[i + 1] && a[1..][j] == a[j + 1];
    }
  }

  /** One line per key, and no newline after the last one: an empty query
      gives the empty string, a single key just its line. */
  lemma QueryShape(keys: seq<string>, q: map<string, seq<string>>)
    requires SortedKeysOf(keys, q)
    ensures q == map[] ==> QueryOf(keys, q) == ""
    ensures |keys| == |q|
    ensures |q| == 1 ==> QueryOf(keys, q) == Line(keys[0], q[keys[0]])
  {
    var ks := set i | 0 <= i < |keys| :: keys[i];
    assert ks == q.Keys;
    DistinctKeys(keys);
    if |q| == 1 {
      assert keys == [keys[0]];
    }
  }

  lemma {:induction false} DistinctKeys(keys: seq<string>)
    requires forall i, j :: 0 <= i < j < |keys| ==> LexLess(keys[i], keys[j])
    ensures |set i | 0 <= i < |keys| :: keys[i]| == |keys|
  {
    if keys != [] {
      var init := keys[..|keys| - 1];
      var x := keys[|keys| - 1];
      assert forall i, j :: 0 <= i < j < |init| ==> LexLess(init[i], init[j]) by {
        forall i, j | 0 <= i < j < |init| ensures LexLess(init[i], init[j]) {
          assert init[i] == keys[i] && init[j] == keys[j];
        }
      }
      DistinctKeys(init);
      var s := set i | 0 <= i < |init| :: init[i];
      assert (set i | 0 <= i < |keys| :: keys[i]) == s + {x};
      assert x !in s by {
        forall i | 0 <= i < |init| ensures init[i] != x {
          assert LexLess(keys[i], x);
          LexLessIrreflexive(x);
        }
      }
    }
  }

  /** The layout of DecodedURL.String (decodeurl.go:21-29): a leading
      newline, the labels Scheme, Host, Path and Query in that order (the
      Scheme line ends with a space), then the query lines. */
  function Layout(du: DecodedURL, query: string): string {
    "\nScheme\t" + du.scheme + " \nHost\t" + du.host + "\nPath\t" + du.path + "\nQuery\n" + query
  }

  method String(du: DecodedURL) returns (s: string)
    ensures exists keys :: SortedKeysOf(keys, du.query) && s == Layout(du, QueryOf(keys, du.query))
  {
    var query := ParseQuery(du.query);
    s := Layout(du, query);
  }

  /** The fields sit after their labels: the text begins with the Scheme
      label and the scheme, each later field follows its own label, and
      the query text ends the string. */
  lemma LayoutFields(du: DecodedURL, query: string)
    ensures var s := Layout(du, query);
      var n := |"\nScheme\t"|;
      && s[..n] == "\nScheme\t"
      && s[n..n + |du.scheme|] == du.scheme
      && HasSuffix(s, "\nQuery\n" + query)
  {
  }
}
