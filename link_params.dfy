/**
 * How hooks/useDeepLinking.ts reads an incoming link: the fragment after the
 * first `#`, the `application/x-www-form-urlencoded` split that
 * `URLSearchParams` performs (section 5.1 of the WHATWG URL Standard, without
 * percent or `+` decoding), `Object.fromEntries` over it, the query text, the
 * `split("#")[1]` piece and the `type` that decides the navigation.
 */
module LinkParams {
  import opened Wrappers
  import opened Text

  type Pair = (string, string)

  /** One `&`-separated piece split at its first `=`; without `=`, the whole piece names an empty value. */
  function SplitPair(piece: string): (p: Pair)
    ensures '=' !in p.0
    ensures '=' in piece ==> piece == p.0 + "=" + p.1
    ensures '=' !in piece ==> p == (piece, "")
  {
    var i := IndexOf(piece, '=');
    if i < 0 then (piece, "")
    else
      assert piece == piece[..i] + "=" + piece[i + 1..];
      (piece[..i], piece[i + 1..])
  }

  /** The pairs of the non-empty pieces, in order. */
  function PairsOf(pieces: seq<string>): (ps: seq<Pair>)
    ensures |ps| <= |pieces|
    ensures forall i :: 0 <= i < |ps| ==> '=' !in ps[i].0
    ensures (forall i :: 0 <= i < |pieces| ==> '&' !in pieces[i]) ==> Encodable(ps)
  {
    if |pieces| == 0 then []
    else
      var head := if pieces[0] == "" then [] else [SplitPair(pieces[0])];
      var rest := PairsOf(pieces[1..]);
      assert (forall i :: 0 <= i < |pieces| ==> '&' !in pieces[i]) ==> Encodable(head) && Encodable(rest) by {
        if forall i :: 0 <= i < |pieces| ==> '&' !in pieces[i] {
          assert forall i :: 0 <= i < |pieces| - 1 ==> pieces[1..][i] == pieces[i + 1];
          SplitPairFree(pieces[0], '&');
        }
      }
      head + rest
  }

  /** A character absent from a piece is absent from its name and its value. */
  lemma SplitPairFree(piece: string, c: char)
    requires c !in piece
    ensures c !in SplitPair(piece).0 && c !in SplitPair(piece).1
  {
    var p := SplitPair(piece);
    if '=' in piece {
      assert piece == p.0 + "=" + p.1;
    }
  }

  /** The name/value list of a form-encoded body: split on `&`, skip empty pieces. */
  function FormPairs(body: string): (ps: seq<Pair>)
    ensures Encodable(ps)
    ensures body == "" ==> ps == []
  {
    assert Split("", '&') == [""];
    PairsOf(Split(body, '&'))
  }

  /** `new URLSearchParams(init)` for a string `init`: one leading `?` is dropped first. */
  function SearchParams(init: string): (ps: seq<Pair>)
    ensures Encodable(ps)
    ensures init == "" || init == "?" ==> ps == []
  {
    FormPairs(if |init| > 0 && init[0] == '?' then init[1..] else init)
  }

  /** The serializer that `FormPairs` inverts: `name=value` pieces joined by `&`. */
  function Serialize(ps: seq<Pair>): string
  {
    if |ps| == 0 then "" else Join(Pieces(ps), '&')
  }

  function Pieces(ps: seq<Pair>): (pieces: seq<string>)
    ensures |pieces| == |ps|
    ensures forall i :: 0 <= i < |ps| ==> pieces[i] == ps[i].0 + "=" + ps[i].1
  {
    seq(|ps|, i requires 0 <= i < |ps| => ps[i].0 + "=" + ps[i].1)
  }

  /** A list that survives the round trip: no `&` anywhere and no `=` in a name. */
  predicate Encodable(ps: seq<Pair>)
  {
    forall i :: 0 <= i < |ps| ==> '&' !in ps[i].0 && '&' !in ps[i].1 && '=' !in ps[i].0
  }

  lemma {:induction false} PairsOfPieces(ps: seq<Pair>)
    requires Encodable(ps)
    ensures PairsOf(Pieces(ps)) == ps
  {
    if |ps| > 0 {
      var pieces := Pieces(ps);
      IndexOfAfterFree(ps[0].0, '=', ps[0].1);
      assert pieces[0] == ps[0].0 + ['='] + ps[0].1;
      assert pieces[0] != "";
      assert pieces[0][..|ps[0].0|] == ps[0].0 && pieces[0][|ps[0].0| + 1..] == ps[0].1;
      assert SplitPair(pieces[0]) == ps[0];
      assert pieces[1..] == Pieces(ps[1..]);
      PairsOfPieces(ps[1..]);
    }
  }

  /** Parsing undoes serializing, for every encodable list. */
  lemma FormPairsSerialize(ps: seq<Pair>)
    requires Encodable(ps)
    ensures FormPairs(Serialize(ps)) == ps
  {
    if |ps| == 0 {
      assert Split("", '&') == [""];
    } else {
      var pieces := Pieces(ps);
      forall i | 0 <= i < |pieces| ensures '&' !in pieces[i] {
        assert pieces[i] == ps[i].0 + "=" + ps[i].1;
      }
      SplitJoin(pieces, '&');
      PairsOfPieces(ps);
    }
  }

  /** A list that also survives inside a link's fragment: no `#` anywhere and no `?` in a name. */
  predicate FragmentEncodable(ps: seq<Pair>)
  {
    Encodable(ps) && forall i :: 0 <= i < |ps| ==> '#' !in ps[i].0 && '#' !in ps[i].1 && '?' !in ps[i].0
  }

  /** Such a list, serialized, holds no `#` and survives `URLSearchParams`' leading-`?` strip. */
  lemma {:induction false} SearchParamsSerialize(ps: seq<Pair>)
    requires FragmentEncodable(ps)
    ensures '#' !in Serialize(ps)
    ensures SearchParams(Serialize(ps)) == ps
  {
    FormPairsSerialize(ps);
    if |ps| > 0 {
      var pieces := Pieces(ps);
      forall i | 0 <= i < |pieces| ensures '#' !in pieces[i] {
        assert pieces[i] == ps[i].0 + "=" + ps[i].1;
      }
      JoinFree(pieces, '&', '#');
      JoinHead(pieces, '&');
      assert pieces[0] == ps[0].0 + "=" + ps[0].1;
      assert Serialize(ps)[0] == pieces[0][0];
      assert pieces[0][0] != '?' by {
        if |ps[0].0| > 0 {
          assert pieces[0][0] == ps[0].0[0];
        } else {
          assert pieces[0][0] == '=';
        }
      }
    }
  }

  /** `URLSearchParams.get(name)`: the value of the first pair with that name. */
  function GetFirst(ps: seq<Pair>, name: string): (v: Option<string>)
    ensures v.None? <==> forall i :: 0 <= i < |ps| ==> ps[i].0 != name
    ensures v.Some? ==> exists i :: 0 <= i < |ps| && ps[i] == (name, v.value)
                                    && forall j :: 0 <= j < i ==> ps[j].0 != name
  {
    if |ps| == 0 then None
    else if ps[0].0 == name then Some(ps[0].1)
    else
      var v := GetFirst(ps[1..], name);
      assert forall i :: 1 <= i < |ps| ==> ps[i] == ps[1..][i - 1];
      v
  }

  /** The value of the last pair with that name. */
  function GetLast(ps: seq<Pair>, name: string): (v: Option<string>)
    ensures v.None? <==> forall i :: 0 <= i < |ps| ==> ps[i].0 != name
    ensures v.Some? ==> exists i :: 0 <= i < |ps| && ps[i] == (name, v.value)
                                    && forall j :: i < j < |ps| ==> ps[j].0 != name
  {
    if |ps| == 0 then None
    else if ps[|ps| - 1].0 == name then Some(ps[|ps| - 1].1)
    else
      var init := ps[..|ps| - 1];
      var v := GetLast(init, name);
      assert forall i :: 0 <= i < |init| ==> init[i] == ps[i];
      assert v.Some? ==> exists i :: 0 <= i < |init| && init[i] == (name, v.value)
                                     && forall j :: i < j < |ps| ==> ps[j].0 != name;
      v
  }

  /** `Object.fromEntries(pairs)`: a later pair overwrites an earlier one with the same name. */
  function FromEntries(ps: seq<Pair>): (m: map<string, string>)
    ensures forall k :: k in m <==> GetLast(ps, k).Some?
    ensures forall k :: k in m ==> m[k] == GetLast(ps, k).value
  {
    if |ps| == 0 then map[]
    else
      var m := FromEntries(ps[..|ps| - 1]);
      assert forall k :: GetLast(ps, k) == if ps[|ps| - 1].0 == k then Some(ps[|ps| - 1].1)
                                           else GetLast(ps[..|ps| - 1], k);
      m[ps[|ps| - 1].0 := ps[|ps| - 1].1]
  }

  /** `url.indexOf("#")` then `url.substring(hashIndex + 1)`: everything after the first `#`. */
  function AfterFirstHash(url: string): (f: Option<string>)
    ensures f.None? <==> '#' !in url
    ensures f.Some? ==> |f.value| < |url|
                        && url == url[..|url| - |f.value| - 1] + "#" + f.value
                        && '#' !in url[..|url| - |f.value| - 1]
  {
    var h := IndexOf(url, '#');
    if h < 0 then None
    else
      assert url == url[..h] + "#" + url[h + 1..];
      Some(url[h + 1..])
  }

  lemma FirstPiece(s: string, c: char)
    ensures Split(s, c)[0] == if c in s then s[..IndexOf(s, c)] else s
  {
  }

  /** `url.split("#")[1] ?? ""`: the text between the first and the second `#`. */
  function SecondPiece(url: string): (t: string)
    ensures '#' !in t
    ensures AfterFirstHash(url).None? ==> t == ""
    ensures AfterFirstHash(url).Some? ==>
              var f := AfterFirstHash(url).value;
              |t| <= |f| && f[..|t|] == t && (|t| == |f| || f[|t|] == '#')
  {
    var parts := Split(url, '#');
    if |parts| > 1 then
      var h := IndexOf(url, '#');
      var f := url[h + 1..];
      assert parts == [url[..h]] + Split(f, '#');
      assert parts[1] == Split(f, '#')[0];
      FirstPiece(f, '#');
      parts[1]
    else
      ""
  }

  /** The link up to its first `#`, or the whole link without one. */
  function BeforeHash(url: string): (b: string)
    ensures '#' !in b
    ensures |b| <= |url| && b == url[..|b|]
    ensures |b| == |url| || url[|b|] == '#'
  {
    var h := IndexOf(url, '#');
    if h < 0 then url else url[..h]
  }

  /** The query text, as the link parser is taken to find it: after the first `?` that precedes any `#`. */
  function QueryText(url: string): (q: Option<string>)
    ensures q.Some? <==> '?' in BeforeHash(url)
    ensures q.Some? ==> var b := BeforeHash(url);
                        && |q.value| < |b|
                        && b[|b| - |q.value| - 1] == '?'
                        && '?' !in b[..|b| - |q.value| - 1]
                        && b[|b| - |q.value|..] == q.value
    ensures q.Some? ==> '#' !in q.value
  {
    var beforeHash := BeforeHash(url);
    var i := IndexOf(beforeHash, '?');
    if i < 0 then None
    else
      var q := beforeHash[i + 1..];
      assert |beforeHash| - |q| - 1 == i;
      Some(q)
  }

  /** `queryParams?.type`: the query's `type`, first occurrence. */
  function QueryType(url: string): (t: Option<string>)
    ensures t.Some? ==> QueryText(url).Some? && ("type", t.value) in FormPairs(QueryText(url).value)
    ensures t.None? <==> QueryText(url).None? || forall p :: p in FormPairs(QueryText(url).value) ==> p.0 != "type"
  {
    match QueryText(url)
    case None => None
    case Some(q) => GetFirst(FormPairs(q), "type")
  }

  /** `queryParams?.type ?? new URLSearchParams(url.split("#")[1] ?? "").get("type")`. */
  function SelectedType(url: string): (t: Option<string>)
    ensures QueryType(url).Some? ==> t == QueryType(url)
    ensures QueryType(url).None? ==>
              (t.None? <==> forall p :: p in SearchParams(SecondPiece(url)) ==> p.0 != "type")
    ensures QueryType(url).None? && t.Some? ==> ("type", t.value) in SearchParams(SecondPiece(url))
    ensures QueryType(url).None? && t.Some? ==>
              var ps := SearchParams(SecondPiece(url));
              exists i :: 0 <= i < |ps| && ps[i] == ("type", t.value) && forall j :: 0 <= j < i ==> ps[j].0 != "type"
  {
    if QueryType(url).Some? then QueryType(url)
    else GetFirst(SearchParams(SecondPiece(url)), "type")
  }

  /** A `type` present in the query decides, whatever the fragment holds: the fragment is not consulted. */
  lemma {:induction false} QueryTypeWins(base: string, query: string, fragment: string, v: string)
    requires '?' !in base && '#' !in base && '#' !in query
    requires GetFirst(FormPairs(query), "type") == Some(v)
    ensures SelectedType(base + "?" + query + "#" + fragment) == Some(v)
    ensures SelectedType(base + "?" + query) == Some(v)
  {
    var pre := base + "?" + query;
    var url := pre + "#" + fragment;
    assert pre == base + ['?'] + query;
    assert url == pre + ['#'] + fragment;
    assert '#' !in pre;
    IndexOfAfterFree(pre, '#', fragment);
    assert url[..|pre|] == pre;
    IndexOfAfterFree(base, '?', query);
    assert pre[|base| + 1..] == query;
    assert QueryText(url) == Some(query);
    IndexOfFree(pre, '#');
    assert QueryText(pre) == Some(query);
  }

  /** Without a query, the `type` is the first one in the text between the first and second `#`. */
  lemma {:induction false} FragmentTypeWithoutQuery(base: string, fragment: string)
    requires '?' !in base && '#' !in base
    ensures SelectedType(base + "#" + fragment) == GetFirst(SearchParams(Split(fragment, '#')[0]), "type")
  {
    var url := base + "#" + fragment;
    assert url == base + ['#'] + fragment;
    IndexOfAfterFree(base, '#', fragment);
    assert url[..|base|] == base;
    IndexOfFree(base, '?');
    assert QueryText(url) == None;
    assert url[|base| + 1..] == fragment;
    assert Split(url, '#') == [base] + Split(fragment, '#');
  }

  /** A link with a query and no fragment: its `type` is the query's, and it carries no tokens. */
  lemma {:induction false} QueryOnlyLink(base: string, query: string)
    requires '?' !in base && '#' !in base && '#' !in query
    ensures SelectedType(base + "?" + query) == GetFirst(FormPairs(query), "type")
    ensures AfterFirstHash(base + "?" + query) == None
  {
    var url := base + "?" + query;
    assert url == base + ['?'] + query;
    assert '#' !in url;
    IndexOfFree(url, '#');
    IndexOfAfterFree(base, '?', query);
    assert url[|base| + 1..] == query;
    assert QueryText(url) == Some(query);
    assert SecondPiece(url) == "";
    assert Split("", '&') == [""];
    assert SearchParams("") == [];
  }

  datatype Tokens = Tokens(access: string, refresh: string)

  /** A value of the `Object.fromEntries` map that JavaScript treats as true: present and non-empty. */
  predicate Truthy(m: map<string, string>, key: string)
  {
    key in m && m[key] != ""
  }

  /** The implicit-flow tokens of the fragment: only when both are present and non-empty. */
  function FragmentTokens(url: string): (t: Option<Tokens>)
    ensures t.Some? ==> t.value.access != "" && t.value.refresh != ""
    ensures t.Some? <==> '#' in url
                         && GetLast(SearchParams(AfterFirstHash(url).value), "access_token").Some?
                         && GetLast(SearchParams(AfterFirstHash(url).value), "access_token").value != ""
                         && GetLast(SearchParams(AfterFirstHash(url).value), "refresh_token").Some?
                         && GetLast(SearchParams(AfterFirstHash(url).value), "refresh_token").value != ""
    ensures t.Some? ==>
              var ps := SearchParams(AfterFirstHash(url).value);
              GetLast(ps, "access_token") == Some(t.value.access)
              && GetLast(ps, "refresh_token") == Some(t.value.refresh)
  {
    match AfterFirstHash(url)
    case None => None
    case Some(fragment) =>
      var params := FromEntries(SearchParams(fragment));
      if Truthy(params, "access_token") && Truthy(params, "refresh_token")
      then Some(Tokens(params["access_token"], params["refresh_token"]))
      else None
  }

  /** A link `base#fragment` whose fragment serializes `ps`: its tokens and `type` are read from `ps`. */
  lemma {:induction false} FragmentLink(base: string, ps: seq<Pair>)
    requires '?' !in base && '#' !in base && FragmentEncodable(ps)
    ensures var url := base + "#" + Serialize(ps);
            && AfterFirstHash(url) == Some(Serialize(ps))
            && SelectedType(url) == GetFirst(ps, "type")
            && (FragmentTokens(url).Some? <==>
                  GetLast(ps, "access_token").Some? && GetLast(ps, "access_token").value != ""
                  && GetLast(ps, "refresh_token").Some? && GetLast(ps, "refresh_token").value != "")
            && (FragmentTokens(url).Some? ==>
                  FragmentTokens(url).value == Tokens(GetLast(ps, "access_token").value, GetLast(ps, "refresh_token").value))
  {
    var fragment := Serialize(ps);
    var url := base + "#" + fragment;
    SearchParamsSerialize(ps);
    assert url == base + ['#'] + fragment;
    IndexOfAfterFree(base, '#', fragment);
    assert url[|base| + 1..] == fragment;
    assert AfterFirstHash(url) == Some(fragment);
    FragmentTypeWithoutQuery(base, fragment);
    FirstPiece(fragment, '#');
    IndexOfFree(fragment, '#');
  }

  /** The tokens of such a link when both are present and non-empty. */
  lemma {:induction false} FragmentLinkTokens(base: string, ps: seq<Pair>, access: string, refresh: string)
    requires '?' !in base && '#' !in base && FragmentEncodable(ps)
    requires GetLast(ps, "access_token") == Some(access) && access != ""
    requires GetLast(ps, "refresh_token") == Some(refresh) && refresh != ""
    ensures FragmentTokens(base + "#" + Serialize(ps)) == Some(Tokens(access, refresh))
  {
    FragmentLink(base, ps);
  }

  /** The `type` of such a link is the first `type` of `ps`. */
  lemma {:induction false} FragmentLinkType(base: string, ps: seq<Pair>)
    requires '?' !in base && '#' !in base && FragmentEncodable(ps)
    ensures SelectedType(base + "#" + Serialize(ps)) == GetFirst(ps, "type")
  {
    FragmentLink(base, ps);
  }
}
