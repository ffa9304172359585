/** One Send (internal/delivery/sender.go, internal/delivery/classify.go): the walk over the
    recipient domain's mail hosts. Each delivery attempt to one host is opaque. */
module Sender {
  import opened Text

  /** The errors the classification tells apart. */
  datatype SendError = SmtpError(code: int) | HostNotFound | OtherError

  predicate IsPermanent(e: SendError) {
    match e
    case SmtpError(code) => code >= 500
    case HostNotFound => true
    case OtherError => false
  }

  datatype Mx = Mx(host: string, pref: nat)

  /** `error` is None for an accepted message; `code` is 250, the SMTP code of the error, or 0. */
  datatype SendResult = SendResult(host: string, code: int, error: Option<SendError>)

  const MAX_ATTEMPTS := 3

  function TrimDot(host: string): string {
    if host != "" && host[|host| - 1] == '.' then host[..|host| - 1] else host
  }

  /** One trailing dot of a host name is dropped, and nothing else. */
  lemma TrimDotSays(host: string)
    ensures TrimDot(host + ".") == host
    ensures host == "" || host[|host| - 1] != '.' ==> TrimDot(host) == host
  {
    assert (host + ".")[..|host|] == host;
  }

  function CodeOf(e: SendError): int {
    match e
    case SmtpError(code) => code
    case _ => 0
  }

  function Failed(host: string, e: SendError): SendResult {
    SendResult(host, CodeOf(e), Some(e))
  }

  // ---------------------------------------------------------------- preference order

  ghost predicate ByPreference(mxs: seq<Mx>) {
    forall i, j :: 0 <= i < j < |mxs| ==> mxs[i].pref <= mxs[j].pref
  }

  /** An order `sort.Slice` may leave: sorted by preference, equal preferences in any order. */
  ghost predicate IsOrderOf(order: seq<Mx>, mxs: seq<Mx>) {
    ByPreference(order) && multiset(order) == multiset(mxs)
  }

  method SwapDown(a: array<Mx>, k: nat)
    requires 0 < k < a.Length
    modifies a
    ensures a[..] == old(a[..])[k - 1 := old(a[k])][k := old(a[k - 1])]
    ensures multiset(a[..]) == old(multiset(a[..]))
  {
    a[k - 1], a[k] := a[k], a[k - 1];
  }

  /** Moves the element at `n` down to its place among the sorted elements before it. */
  method SinkInto(a: array<Mx>, n: nat)
    requires n < a.Length && ByPreference(a[..n])
    modifies a
    ensures ByPreference(a[..n + 1]) && multiset(a[..]) == old(multiset(a[..]))
  {
    var k := n;
    while k > 0 && a[k - 1].pref > a[k].pref
      invariant 0 <= k <= n
      invariant forall i, j :: 0 <= i < j <= n && j != k ==> a[..][i].pref <= a[..][j].pref
      invariant multiset(a[..]) == old(multiset(a[..]))
    {
      SwapDown(a, k);
      k := k - 1;
    }
  }

  /** Sorts by preference in place; the order among equal preferences is not part of the contract. */
  method SortByPreference(a: array<Mx>)
    modifies a
    ensures IsOrderOf(a[..], old(a[..]))
  {
    for n := 0 to a.Length
      invariant ByPreference(a[..n])
      invariant multiset(a[..]) == old(multiset(a[..]))
    {
      SinkInto(a, n);
    }
    assert a[..a.Length] == a[..];
  }

  // ---------------------------------------------------------------- the walk

  /** The hosts of one Send in the order tried: the domain itself if it has no MX, and at most three
      of the most preferred. */
  function Candidates(order: seq<Mx>, domain: string): seq<Mx> {
    var all := if order == [] then [Mx(domain, 0)] else order;
    if |all| > MAX_ATTEMPTS then all[..MAX_ATTEMPTS] else all
  }

  /** The n-th host tried answers `replies(n, host)`: None if it accepted the message. */
  type Replies = (nat, string) -> Option<SendError>

  predicate Temporary(e: Option<SendError>) {
    e.Some? && !IsPermanent(e.value)
  }

  /** `r` is the result of trying the first `tried` hosts: all but the last failed temporarily, and
      the last one decided, or was the last there is. */
  ghost predicate WalkedTo(hosts: seq<Mx>, replies: Replies, tried: nat, r: SendResult) {
    && 1 <= tried <= |hosts|
    && r.host == TrimDot(hosts[tried - 1].host)
    && r.error == replies(tried - 1, r.host)
    && r.code == (match r.error case None => 250 case Some(e) => CodeOf(e))
    && (forall k :: 0 <= k < tried - 1 ==> Temporary(replies(k, TrimDot(hosts[k].host))))
    && (Temporary(r.error) ==> tried == |hosts|)
  }

  /** The loop over the hosts: returns at the first success or permanent refusal. */
  method Walk(hosts: seq<Mx>, replies: Replies) returns (r: SendResult, tried: nat)
    requires hosts != []
    ensures WalkedTo(hosts, replies, tried, r)
  {
    tried := 0;
    r := SendResult("", 0, None);
    while tried < |hosts|
      invariant 0 <= tried <= |hosts|
      invariant forall k :: 0 <= k < tried ==> Temporary(replies(k, TrimDot(hosts[k].host)))
      invariant tried > 0 ==>
        && r.host == TrimDot(hosts[tried - 1].host) && r.error == replies(tried - 1, r.host)
        && r.error.Some? && r == Failed(r.host, r.error.value)
    {
      var host := TrimDot(hosts[tried].host);
      var reply := replies(tried, host);
      tried := tried + 1;
      match reply {
        case None =>
          r := SendResult(host, 250, None);
          return;
        case Some(e) =>
          r := Failed(host, e);
          if IsPermanent(e) {
            return;
          }
      }
    }
  }

  /** Sorts the hosts by preference, keeps at most three, and walks them. */
  method Send(mxs: seq<Mx>, domain: string, replies: Replies) returns (r: SendResult, tried: nat, order: seq<Mx>)
    ensures IsOrderOf(order, mxs)
    ensures 1 <= tried <= 3
    ensures Candidates(order, domain) == (if mxs == [] then [Mx(domain, 0)] else if |order| <= 3 then order else order[..3])
    ensures WalkedTo(Candidates(order, domain), replies, tried, r)
  {
    hide WalkedTo, ByPreference;
    var a := new Mx[|mxs|](i requires 0 <= i < |mxs| => mxs[i]);
    assert a[..] == mxs;
    SortByPreference(a);
    order := a[..];
    r, tried := Walk(Candidates(order, domain), replies);
  }

  // ---------------------------------------------------------------- consequences

  /** Host `k` accepts, and every host before it failed temporarily. */
  ghost predicate AcceptsFirst(hosts: seq<Mx>, replies: Replies, k: nat) {
    && k < |hosts| && replies(k, TrimDot(hosts[k].host)).None?
    && forall m :: 0 <= m < k ==> Temporary(replies(m, TrimDot(hosts[m].host)))
  }

  /** The host refused for good: an SMTP code of 500 or more, or the host does not exist. */
  predicate ForGood(e: Option<SendError>) {
    e.Some? && ((e.value.SmtpError? && e.value.code >= 500) || e.value == HostNotFound)
  }

  /** A Send succeeds if and only if some host accepts and all before it neither accept nor refuse for
      good; it fails for good if and only if some host refuses for good and all before it neither
      accept nor refuse for good; and it then carries that host's code. */
  lemma SendDecides(hosts: seq<Mx>, replies: Replies, tried: nat, r: SendResult)
    requires WalkedTo(hosts, replies, tried, r)
    ensures r.error.None? <==> exists k: nat :: Decides(hosts, replies, k) && AnswerOf(hosts, replies, k).None?
    ensures ForGood(r.error) <==> exists k: nat :: Decides(hosts, replies, k) && ForGood(AnswerOf(hosts, replies, k))
    ensures forall k: nat :: Decides(hosts, replies, k) ==> tried == k + 1 && r.error == AnswerOf(hosts, replies, k)
    ensures (forall k: nat :: !Decides(hosts, replies, k)) ==> tried == |hosts| && r.error == AnswerOf(hosts, replies, |hosts| - 1)
    ensures 1 <= tried <= |hosts| && (r.host == hosts[tried - 1].host || r.host + "." == hosts[tried - 1].host)
    ensures r.error.None? ==> r.code == 250
    ensures r.error.Some? ==> r.code == if r.error.value.SmtpError? then r.error.value.code else 0
  {
    assert AnswerOf(hosts, replies, tried - 1) == r.error;
    forall k: nat | k < tried - 1 ensures !Decided(AnswerOf(hosts, replies, k)) {
      assert Temporary(replies(k, TrimDot(hosts[k].host)));
    }
    if Decided(r.error) {
      assert Decides(hosts, replies, tried - 1);
    } else {
      assert Temporary(r.error);
    }
  }

  predicate Decided(e: Option<SendError>) {
    e.None? || ForGood(e)
  }

  function AnswerOf(hosts: seq<Mx>, replies: Replies, k: nat): Option<SendError>
    requires k < |hosts|
  {
    replies(k, TrimDot(hosts[k].host))
  }

  /** Host `k` is the first that accepts or refuses for good. */
  ghost predicate Decides(hosts: seq<Mx>, replies: Replies, k: nat) {
    && k < |hosts| && Decided(AnswerOf(hosts, replies, k))
    && forall m: nat :: m < k ==> !Decided(AnswerOf(hosts, replies, m))
  }

  /** A Send succeeds exactly if the first host that does not fail temporarily accepts, reports a
      temporary failure exactly if all candidates fail temporarily, and otherwise fails for good. */
  lemma WalkDecides(hosts: seq<Mx>, replies: Replies, tried: nat, r: SendResult)
    requires WalkedTo(hosts, replies, tried, r)
    ensures Temporary(r.error) <==> forall k :: 0 <= k < |hosts| ==> Temporary(replies(k, TrimDot(hosts[k].host)))
    ensures r.error.None? <==> exists k: nat :: AcceptsFirst(hosts, replies, k)
  {
    assert replies(tried - 1, TrimDot(hosts[tried - 1].host)) == r.error;
    if r.error.None? {
      assert AcceptsFirst(hosts, replies, tried - 1);
    }
    if k: nat :| AcceptsFirst(hosts, replies, k) {
      assert tried - 1 <= k;
      assert k <= tried - 1;
    }
  }

  /** No host left out is preferred to one that was tried, whichever order the sort left. */
  lemma TriedArePreferred(order: seq<Mx>, mxs: seq<Mx>, domain: string, k: nat, m: nat)
    requires IsOrderOf(order, mxs) && k < |Candidates(order, domain)| && MAX_ATTEMPTS <= m < |order|
    ensures Candidates(order, domain)[k].pref <= order[m].pref
  {
  }
}
