/**
 * What the worker and capture commands do with their repeatable -H flag and their
 * --mask-selectors flag: the headers flag type that collects values, the "Key: Value"
 * parsing into a header map, and the comma-separated selector list. Both commands carry
 * their own copy of this code; it is modelled once.
 */
module CliFlags {
  import opened Wrappers
  import opened StringUtil

  /** The headers flag value: a list of strings that grows by one per -H occurrence. */
  class HeaderFlag {
    var values: seq<string>

    constructor()
      ensures values == []
    {
      values := [];
    }

    /** Set: appends the occurrence's value, which String then shows after a ", " (or alone). */
    method Set(value: string)
      modifies this
      ensures values == old(values) + [value]
      ensures String() == if old(values) == [] then value else old(String()) + ", " + value
    {
      if values != [] {
        JoinSnoc(values, value, ", ");
      }
      values := values + [value];
    }

    /** String: the values joined by ", ". */
    function String(): (s: string)
      reads this
      ensures values == [] ==> s == []
      ensures |values| == 1 ==> s == values[0]
    {
      Join(values, ", ")
    }
  }

  // ---------------------------------------------------------------- trimming

  /** A string that neither starts nor ends with white space. */
  predicate Trimmed(s: string)
  {
    s == [] || (!IsSpace(s[0]) && !IsSpace(s[|s| - 1]))
  }

  lemma TrimSpaceTrimmed(s: string)
    requires Trimmed(s)
    ensures TrimSpace(s) == s
  {
  }

  lemma TrimSpaceLeadingBlank(s: string)
    requires Trimmed(s)
    ensures TrimSpace([' '] + s) == s
  {
    assert ([' '] + s)[1..] == s;
  }

  // ---------------------------------------------------------------- headers

  /** One -H value split at its first ':' into a trimmed key and value; None without a ':'. */
  function HeaderEntry(header: string): (r: Option<(string, string)>)
    ensures r.None? <==> ':' !in header
  {
    match SplitFirst(header, ':')
    case None => None
    case Some(p) => Some((TrimSpace(p.0), TrimSpace(p.1)))
  }

  /** The line the controllers write for one header. */
  function HeaderLine(key: string, value: string): (line: string)
    ensures ':' in line
  {
    assert (key + ": " + value)[|key|] == ':';
    key + ": " + value
  }

  /** A header the line format carries without loss: no ':' in the key, nothing to trim on either side. */
  predicate HeaderSafe(key: string, value: string)
  {
    ':' !in key && Trimmed(key) && Trimmed(value)
  }

  lemma {:induction false} SplitFirstAt(a: string, b: string, sep: char)
    requires sep !in a
    ensures SplitFirst(a + [sep] + b, sep) == Some((a, b))
  {
    if |a| == 0 {
      assert a + [sep] + b == [sep] + b;
      assert ([sep] + b)[1..] == b;
    } else {
      assert (a + [sep] + b)[1..] == a[1..] + [sep] + b;
      SplitFirstAt(a[1..], b, sep);
      assert [a[0]] + a[1..] == a;
    }
  }

  /** Parsing the line of a safe header gives back its key and value. */
  lemma HeaderLineEntry(key: string, value: string)
    requires HeaderSafe(key, value)
    ensures HeaderEntry(HeaderLine(key, value)) == Some((key, value))
  {
    assert key + ": " + value == key + [':'] + ([' '] + value);
    SplitFirstAt(key, [' '] + value, ':');
    TrimSpaceTrimmed(key);
    TrimSpaceLeadingBlank(value);
  }

  /** One step of the header loop: a parsed entry overwrites any earlier value of its key. */
  function AddHeader(m: map<string, string>, header: string): (m': map<string, string>)
    ensures ':' !in header ==> m' == m
    ensures ':' in header ==> HeaderEntry(header).Some? && m' == m[HeaderEntry(header).value.0 := HeaderEntry(header).value.1]
  {
    match HeaderEntry(header)
    case None => m
    case Some(kv) => m[kv.0 := kv.1]
  }

  /** The header map after the loop over the -H values, starting from m. */
  function HeaderMap(headers: seq<string>, m: map<string, string>): map<string, string>
  {
    if |headers| == 0 then m else AddHeader(HeaderMap(headers[..|headers| - 1], m), headers[|headers| - 1])
  }

  /** The header loop: each value with a ':' sets its trimmed key to its trimmed value; later ones win. */
  method ParseHeaders(headers: seq<string>, m0: map<string, string>) returns (m: map<string, string>)
    ensures m == HeaderMap(headers, m0)
  {
    m := m0;
    for i := 0 to |headers|
      invariant m == HeaderMap(headers[..i], m0)
    {
      assert headers[..i + 1][..i] == headers[..i];
      var parts := SplitFirst(headers[i], ':');
      if parts.Some? {
        var key := TrimSpace(parts.value.0);
        var value := TrimSpace(parts.value.1);
        m := m[key := value];
      }
    }
    assert headers[..|headers|] == headers;
  }

  /** Values without a ':' change nothing. */
  lemma {:induction false} HeaderMapSkipsLinesWithoutColon(headers: seq<string>, m: map<string, string>)
    requires forall i :: 0 <= i < |headers| ==> ':' !in headers[i]
    ensures HeaderMap(headers, m) == m
  {
    if |headers| > 0 {
      HeaderMapSkipsLinesWithoutColon(headers[..|headers| - 1], m);
    }
  }

  /** The -H lines the controllers emit for the keys in the given order. */
  function HeaderLines(h: map<string, string>, keys: seq<string>): (lines: seq<string>)
    requires forall i :: 0 <= i < |keys| ==> keys[i] in h
    ensures |lines| == |keys|
    ensures forall i :: 0 <= i < |keys| ==> lines[i] == HeaderLine(keys[i], h[keys[i]])
  {
    seq(|keys|, i requires 0 <= i < |keys| => HeaderLine(keys[i], h[keys[i]]))
  }

  /** The headers of h whose keys occur in keys. */
  function Restrict(h: map<string, string>, keys: seq<string>): (r: map<string, string>)
    ensures forall k :: k in r <==> k in h && k in keys
  {
    map k | k in keys && k in h :: h[k]
  }

  lemma HeaderMapSnoc(headers: seq<string>, header: string, m: map<string, string>)
    ensures HeaderMap(headers + [header], m) == AddHeader(HeaderMap(headers, m), header)
  {
    assert (headers + [header])[..|headers|] == headers;
  }

  lemma RestrictLast(h: map<string, string>, keys: seq<string>)
    requires |keys| > 0 && keys[|keys| - 1] in h
    ensures var k := keys[|keys| - 1];
            Restrict(h, keys) == Restrict(h, keys[..|keys| - 1])[k := h[k]]
  {
    var n := |keys| - 1;
    var k := keys[n];
    assert keys == keys[..n] + [k];
    var l, r := Restrict(h, keys), Restrict(h, keys[..n])[k := h[k]];
    assert forall x :: x in keys <==> x in keys[..n] || x == k;
    assert l.Keys == r.Keys;
  }

  lemma HeaderLinesLast(h: map<string, string>, keys: seq<string>)
    requires forall i :: 0 <= i < |keys| ==> keys[i] in h
    requires |keys| > 0
    ensures var n := |keys| - 1;
            HeaderLines(h, keys) == HeaderLines(h, keys[..n]) + [HeaderLine(keys[n], h[keys[n]])]
  {
    var n := |keys| - 1;
    var a, b := HeaderLines(h, keys), HeaderLines(h, keys[..n]) + [HeaderLine(keys[n], h[keys[n]])];
    assert |a| == |b|;
    forall i | 0 <= i < |a|
      ensures a[i] == b[i]
    {
      if i < n {
        assert keys[..n][i] == keys[i];
      }
    }
  }

  lemma {:induction false} HeaderLinesRestrict(h: map<string, string>, keys: seq<string>)
    requires forall k :: k in h ==> HeaderSafe(k, h[k])
    requires forall i :: 0 <= i < |keys| ==> keys[i] in h
    ensures HeaderMap(HeaderLines(h, keys), map[]) == Restrict(h, keys)
  {
    if |keys| > 0 {
      var n := |keys| - 1;
      var k := keys[n];
      var init := keys[..n];
      HeaderLinesRestrict(h, init);
      HeaderLinesLast(h, keys);
      HeaderMapSnoc(HeaderLines(h, init), HeaderLine(k, h[k]), map[]);
      HeaderLineEntry(k, h[k]);
      RestrictLast(h, keys);
    }
  }

  /**
   * Headers written one line per key, in any order that lists every key once, parse back into
   * the same map, provided each header is safe for the line format.
   */
  lemma HeaderRoundTrip(h: map<string, string>, order: seq<string>)
    requires forall k :: k in h ==> HeaderSafe(k, h[k])
    requires forall k :: k in h <==> k in order
    ensures HeaderMap(HeaderLines(h, order), map[]) == h
  {
    HeaderLinesRestrict(h, order);
  }

  // ---------------------------------------------------------------- mask selectors

  /** Each element trimmed. */
  function TrimAll(parts: seq<string>): (r: seq<string>)
    ensures |r| == |parts|
  {
    seq(|parts|, i requires 0 <= i < |parts| => TrimSpace(parts[i]))
  }

  /** The selector list the commands derive from the flag: none for "", else the trimmed comma-separated parts. */
  function Selectors(flag: string): seq<string>
  {
    if flag == "" then [] else TrimAll(Split(flag, ','))
  }

  /** The mask-selector code: split on ',' and trim each part in place; an empty flag leaves the list empty. */
  method SplitMaskSelectors(flag: string) returns (selectors: seq<string>)
    ensures selectors == Selectors(flag)
  {
    selectors := [];
    if flag != "" {
      selectors := Split(flag, ',');
      ghost var parts := selectors;
      for i := 0 to |selectors|
        invariant |selectors| == |parts|
        invariant forall j :: 0 <= j < i ==> selectors[j] == TrimSpace(parts[j])
        invariant forall j :: i <= j < |parts| ==> selectors[j] == parts[j]
      {
        selectors := selectors[i := TrimSpace(selectors[i])];
      }
    }
  }

  /** A selector the comma-joined flag carries without loss: non-empty, no ',', nothing to trim. */
  predicate SelectorSafe(s: string)
  {
    s != [] && ',' !in s && Trimmed(s)
  }

  /** The comma-joined selectors the controllers pass come back as the same list. */
  lemma SelectorsRoundTrip(selectors: seq<string>)
    requires forall i :: 0 <= i < |selectors| ==> SelectorSafe(selectors[i])
    ensures Selectors(Join(selectors, [','])) == selectors
  {
    if |selectors| > 0 {
      SplitJoin(selectors, ',');
      JoinStartsWithFirst(selectors, [',']);
      forall i | 0 <= i < |selectors|
        ensures TrimSpace(selectors[i]) == selectors[i]
      {
        TrimSpaceTrimmed(selectors[i]);
      }
    }
  }

  lemma JoinStartsWithFirst(parts: seq<string>, sep: string)
    requires |parts| > 0
    ensures |Join(parts, sep)| >= |parts[0]| && Join(parts, sep)[..|parts[0]|] == parts[0]
  {
  }
}
