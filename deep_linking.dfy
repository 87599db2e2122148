/**
 * The deep-link session resolver of hooks/useDeepLinking.ts. For each
 * non-empty link: try the authorization-code exchange (the PKCE pattern of
 * RFC 7636) with the whole link; if that yields no session, fall back to the
 * implicit-flow tokens of the fragment (section 4.2.2 of RFC 6749); then,
 * whatever the outcome, select the link's `type` and navigate to the
 * password-update flow only for `recovery`. Every failure the auth
 * collaborator answers with is absorbed; a rejected call is not modelled.
 *
 * The auth collaborator is represented by its answers; the calls made and the
 * navigation issued are returned as a trace of effects.
 */
module DeepLinking {
  import opened Wrappers
  import opened Text
  import opened LinkParams

  /** What `exchangeCodeForSession` answered: whether `data.session` and `error` are set. */
  datatype ExchangeReply = ExchangeReply(hasSession: bool, hasError: bool)

  /** The exchange counts only when it returned a session and no error. */
  predicate ExchangeSucceeded(r: ExchangeReply)
  {
    r.hasSession && !r.hasError
  }

  /** A call to the auth collaborator or to the router, in the order made. */
  datatype Effect =
    | ExchangeCode(url: string)
    | SetSession(accessToken: string, refreshToken: string)
    | Navigate(path: string)

  /** Which of the two "session restored" outcomes was reached, if any. */
  datatype Restored = ByCode | ByTokens | NotRestored

  const UpdatePasswordRoute := "/reset-password?mode=update"
  const RecoveryType := "recovery"

  /** `!url`: a null or empty link is ignored. */
  predicate Absent(url: Option<string>)
  {
    url.None? || url.value == ""
  }

  /**
   * The order of the calls for one non-empty link `u`, given what decides them:
   * whether the exchange succeeded, the fragment tokens, and whether the link is
   * a recovery link.
   */
  function Steps(u: string, exchanged: bool, tokens: Option<Tokens>, recovery: bool): (t: seq<Effect>)
    ensures |t| >= 1 && t[0] == ExchangeCode(u)
    ensures forall i :: 1 <= i < |t| ==> !t[i].ExchangeCode?
    ensures (exists i :: 0 <= i < |t| && t[i].SetSession?) <==> !exchanged && tokens.Some?
    ensures forall i :: 0 <= i < |t| && t[i].SetSession? ==>
              i == 1 && tokens == Some(Tokens(t[i].accessToken, t[i].refreshToken))
    ensures (exists i :: 0 <= i < |t| && t[i].Navigate?) <==> recovery
    ensures forall i :: 0 <= i < |t| && t[i].Navigate? ==> i == |t| - 1 && t[i].path == UpdatePasswordRoute
  {
    var install := if !exchanged && tokens.Some? then [SetSession(tokens.value.access, tokens.value.refresh)] else [];
    var route := if recovery then [Navigate(UpdatePasswordRoute)] else [];
    var t := [ExchangeCode(u)] + install + route;
    assert |install| == 1 ==> t[1] == install[0];
    assert |route| == 1 ==> t[|t| - 1] == route[0];
    assert forall i :: 1 + |install| <= i < |t| ==> t[i] == route[i - 1 - |install|];
    t
  }

  /** The effects handling one link has: exchange first, then the token fallback, then the navigation. */
  function LinkEffects(url: Option<string>, exchange: ExchangeReply): (t: seq<Effect>)
    ensures Absent(url) ==> t == []
    ensures !Absent(url) ==> |t| >= 1 && t[0] == ExchangeCode(url.value)
    ensures forall i :: 1 <= i < |t| ==> !t[i].ExchangeCode?
    ensures (exists i :: 0 <= i < |t| && t[i].SetSession?) <==>
              !Absent(url) && !ExchangeSucceeded(exchange) && FragmentTokens(url.value).Some?
    ensures forall i :: 0 <= i < |t| && t[i].SetSession? ==>
              i == 1 && FragmentTokens(url.value) == Some(Tokens(t[i].accessToken, t[i].refreshToken))
    ensures (exists i :: 0 <= i < |t| && t[i].Navigate?) <==>
              !Absent(url) && SelectedType(url.value) == Some(RecoveryType)
    ensures forall i :: 0 <= i < |t| && t[i].Navigate? ==> i == |t| - 1 && t[i].path == UpdatePasswordRoute
  {
    if Absent(url) then []
    else
      Steps(url.value, ExchangeSucceeded(exchange), FragmentTokens(url.value),
            SelectedType(url.value) == Some(RecoveryType))
  }

  /** The session outcome: the code exchange, else the installed fragment tokens, else none. */
  function Restoration(url: Option<string>, exchange: ExchangeReply, installOk: bool): (r: Restored)
    ensures r == ByCode <==> !Absent(url) && ExchangeSucceeded(exchange)
    ensures r == ByTokens <==>
              !Absent(url) && !ExchangeSucceeded(exchange) && FragmentTokens(url.value).Some? && installOk
  {
    if Absent(url) then NotRestored
    else if ExchangeSucceeded(exchange) then ByCode
    else if FragmentTokens(url.value).Some? && installOk then ByTokens
    else NotRestored
  }

  /** The fallback's reading of the link: the first `#`, the fragment after it, its entries, both tokens truthy. */
  method ReadFragmentTokens(u: string) returns (tokens: Option<Tokens>)
    ensures tokens == FragmentTokens(u)
  {
    var hashIndex := IndexOf(u, '#');
    if hashIndex == -1 {
      return None;
    }
    var fragment := u[hashIndex + 1..];
    assert AfterFirstHash(u) == Some(fragment);
    var params := FromEntries(SearchParams(fragment));
    if Truthy(params, "access_token") && Truthy(params, "refresh_token") {
      return Some(Tokens(params["access_token"], params["refresh_token"]));
    }
    return None;
  }

  /** `handleUrl`, step by step; `installOk` is whether `setSession` answered without error. */
  method HandleUrl(url: Option<string>, exchange: ExchangeReply, installOk: bool)
    returns (trace: seq<Effect>, restored: Restored)
    ensures trace == LinkEffects(url, exchange)
    ensures restored == Restoration(url, exchange, installOk)
  {
    if url.None? || url.value == "" {
      return [], NotRestored;
    }
    var u := url.value;
    trace := [ExchangeCode(u)];
    restored := NotRestored;
    var exchanged := exchange.hasSession && !exchange.hasError;
    ghost var tokens := FragmentTokens(u);
    if exchanged {
      restored := ByCode;
    } else {
      var fallback := ReadFragmentTokens(u);
      if fallback.Some? {
        trace := trace + [SetSession(fallback.value.access, fallback.value.refresh)];
        if installOk {
          restored := ByTokens;
        }
      }
    }
    var linkType := SelectedType(u);
    var recovery := linkType == Some(RecoveryType);
    if recovery {
      trace := trace + [Navigate(UpdatePasswordRoute)];
    }
    assert trace == Steps(u, exchanged, tokens, recovery);
  }

  /**
   * The hook's lifetime: the cold-start link is handled on activation, then each
   * foreground link while subscribed; teardown removes the subscription.
   */
  class Listener {
    var subscribed: bool
    /** The links handed to `handleUrl`, in order. */
    var handled: seq<Option<string>>
    var effects: seq<Effect>

    constructor Activate(initial: Option<string>, exchange: ExchangeReply, installOk: bool)
      ensures subscribed
      ensures handled == [initial]
      ensures effects == LinkEffects(initial, exchange)
    {
      var t, _ := HandleUrl(initial, exchange, installOk);
      handled := [initial];
      effects := t;
      subscribed := true;
    }

    /** A `url` event from the link source. */
    method Receive(url: string, exchange: ExchangeReply, installOk: bool) returns (restored: Restored)
      modifies this
      ensures subscribed == old(subscribed)
      ensures old(subscribed) ==> handled == old(handled) + [Some(url)]
                                  && effects == old(effects) + LinkEffects(Some(url), exchange)
                                  && restored == Restoration(Some(url), exchange, installOk)
      ensures !old(subscribed) ==> handled == old(handled) && effects == old(effects) && restored == NotRestored
    {
      restored := NotRestored;
      if subscribed {
        var t;
        t, restored := HandleUrl(Some(url), exchange, installOk);
        handled := handled + [Some(url)];
        effects := effects + t;
      }
    }

    /** `sub.remove()`. */
    method Teardown()
      modifies this
      ensures !subscribed
      ensures handled == old(handled) && effects == old(effects)
    {
      subscribed := false;
    }
  }

  /** The cold-start link and a foreground link are each handled once; a link after teardown is not. */
  method ColdStartThenForeground(initial: Option<string>, link: string, late: string, exchange: ExchangeReply)
    returns (handled: seq<Option<string>>, effects: seq<Effect>)
    ensures handled == [initial, Some(link)]
    ensures effects == LinkEffects(initial, exchange) + LinkEffects(Some(link), exchange)
  {
    var listener := new Listener.Activate(initial, exchange, true);
    var _ := listener.Receive(link, exchange, true);
    listener.Teardown();
    var _ := listener.Receive(late, exchange, true);
    handled, effects := listener.handled, listener.effects;
  }

  /** A code link (a query and no fragment) whose exchange succeeds: the session comes from the code, nothing else happens. */
  lemma {:induction false} CodeLinkScenario(base: string, query: string, exchange: ExchangeReply)
    requires '?' !in base && '#' !in base && '#' !in query
    requires GetFirst(FormPairs(query), "type") == None
    requires ExchangeSucceeded(exchange)
    ensures LinkEffects(Some(base + "?" + query), exchange) == [ExchangeCode(base + "?" + query)]
    ensures Restoration(Some(base + "?" + query), exchange, false) == ByCode
  {
    QueryOnlyLink(base, query);
  }

  /** Any recovery link with fragment tokens and a failed exchange: exchange, install, navigate. */
  lemma RecoveryTokenLink(url: string, exchange: ExchangeReply, access: string, refresh: string)
    requires url != "" && !ExchangeSucceeded(exchange)
    requires FragmentTokens(url) == Some(Tokens(access, refresh))
    requires SelectedType(url) == Some(RecoveryType)
    ensures LinkEffects(Some(url), exchange) == [ExchangeCode(url), SetSession(access, refresh), Navigate(UpdatePasswordRoute)]
  {
    RecoveryTokenSteps(url, access, refresh);
  }

  /** The steps of a failed exchange with tokens on a recovery link. */
  lemma RecoveryTokenSteps(u: string, access: string, refresh: string)
    ensures Steps(u, false, Some(Tokens(access, refresh)), true)
            == [ExchangeCode(u), SetSession(access, refresh), Navigate(UpdatePasswordRoute)]
  {
    assert [ExchangeCode(u)] + [SetSession(access, refresh)] + [Navigate(UpdatePasswordRoute)]
           == [ExchangeCode(u), SetSession(access, refresh), Navigate(UpdatePasswordRoute)];
  }

  /**
   * An implicit-flow recovery link `base#access_token=…&refresh_token=…&type=recovery`
   * whose exchange fails: the fragment tokens are installed, then the update flow opens.
   */
  lemma {:induction false} TokenLinkScenario(base: string, ps: seq<Pair>, exchange: ExchangeReply, access: string, refresh: string)
    requires '?' !in base && '#' !in base && FragmentEncodable(ps)
    requires GetLast(ps, "access_token") == Some(access) && access != ""
    requires GetLast(ps, "refresh_token") == Some(refresh) && refresh != ""
    requires GetFirst(ps, "type") == Some(RecoveryType)
    requires !ExchangeSucceeded(exchange)
    ensures var url := base + "#" + Serialize(ps);
            LinkEffects(Some(url), exchange) == [ExchangeCode(url), SetSession(access, refresh), Navigate(UpdatePasswordRoute)]
  {
    var url := base + "#" + Serialize(ps);
    FragmentLinkTokens(base, ps, access, refresh);
    FragmentLinkType(base, ps);
    assert url == base + ['#'] + Serialize(ps);
    RecoveryTokenLink(url, exchange, access, refresh);
  }

  /** On the same link, the session is restored exactly when `setSession` succeeds. */
  lemma {:induction false} TokenLinkRestoration(base: string, ps: seq<Pair>, exchange: ExchangeReply, access: string, refresh: string)
    requires '?' !in base && '#' !in base && FragmentEncodable(ps)
    requires GetLast(ps, "access_token") == Some(access) && access != ""
    requires GetLast(ps, "refresh_token") == Some(refresh) && refresh != ""
    requires !ExchangeSucceeded(exchange)
    ensures Restoration(Some(base + "#" + Serialize(ps)), exchange, true) == ByTokens
    ensures Restoration(Some(base + "#" + Serialize(ps)), exchange, false) == NotRestored
  {
    FragmentLinkTokens(base, ps, access, refresh);
  }

  /** A recovery link with no code and no tokens: nothing is restored, yet the update flow opens. */
  lemma {:induction false} BareRecoveryScenario(base: string, query: string, exchange: ExchangeReply, installOk: bool)
    requires '?' !in base && '#' !in base && '#' !in query
    requires GetFirst(FormPairs(query), "type") == Some(RecoveryType)
    requires !ExchangeSucceeded(exchange)
    ensures LinkEffects(Some(base + "?" + query), exchange)
              == [ExchangeCode(base + "?" + query), Navigate(UpdatePasswordRoute)]
    ensures Restoration(Some(base + "?" + query), exchange, installOk) == NotRestored
  {
    QueryOnlyLink(base, query);
  }
}
