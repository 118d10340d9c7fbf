/** The grep conditions of `org.tbull.util.Grepper`: stateless decisions over one
    element, with the stock combinators. A grepper is a value; its decision is a
    function of the element alone, which is what the interface's purity rule asks. */
module Greppers {

  datatype Grepper<!E> =
    | NullGrepper                               // rejects everything
    | OneGrepper                                // accepts everything
    | InverseGrepper(wrapped: Grepper<E>)       // negates the wrapped grepper
    | OrGrepper(children: seq<Grepper<E>>)      // OR over the client list, in order
    | AndGrepper(children: seq<Grepper<E>>)     // AND over the client list, in order
    | Custom(test: E -> bool)                   // a caller-supplied grepper

  /** How a short-circuit scan over a client list ended: the decision and how many
      clients (a prefix of the list) were asked. */
  datatype Scan = Scan(decision: bool, consulted: nat)

  /** `grep(element)`: the decision of grepper `g` on `element`. */
  function Grep<E>(g: Grepper<E>, element: E): bool
    decreases g, 0
  {
    match g
    case NullGrepper => false
    case OneGrepper => true
    case InverseGrepper(w) => !Grep(w, element)
    case OrGrepper(cs) => OrScan(cs, element, 0).decision
    case AndGrepper(cs) => AndScan(cs, element, 0).decision
    case Custom(f) => f(element)
  }

  /** The loop of `ORGrepper.grep` from index `k` on: asks the clients in list order
      and stops at the first one that accepts. */
  function OrScan<E>(cs: seq<Grepper<E>>, element: E, k: nat): (r: Scan)
    requires k <= |cs|
    ensures k <= r.consulted <= |cs|
    ensures forall m :: k <= m < r.consulted - (if r.decision then 1 else 0) ==> !Grep(cs[m], element)
    ensures r.decision ==> k < r.consulted && Grep(cs[r.consulted - 1], element)
    ensures !r.decision ==> r.consulted == |cs|
    decreases cs, |cs| - k
  {
    if k == |cs| then Scan(false, k)
    else if Grep(cs[k], element) then Scan(true, k + 1)
    else OrScan(cs, element, k + 1)
  }

  /** The loop of `ANDGrepper.grep` from index `k` on: asks the clients in list order
      and stops at the first one that rejects. */
  function AndScan<E>(cs: seq<Grepper<E>>, element: E, k: nat): (r: Scan)
    requires k <= |cs|
    ensures k <= r.consulted <= |cs|
    ensures forall m :: k <= m < r.consulted - (if r.decision then 0 else 1) ==> Grep(cs[m], element)
    ensures !r.decision ==> k < r.consulted && !Grep(cs[r.consulted - 1], element)
    ensures r.decision ==> r.consulted == |cs|
    decreases cs, |cs| - k
  {
    if k == |cs| then Scan(true, k)
    else if !Grep(cs[k], element) then Scan(false, k + 1)
    else AndScan(cs, element, k + 1)
  }

  /** `NULLGrepper` rejects and `ONEGrepper` accepts every element. */
  lemma StockGreppers<E>(element: E)
    ensures !Grep(NullGrepper, element)
    ensures Grep(OneGrepper, element)
  {
  }

  /** `InverseGrepper` negates its client; wrapping twice gives the client's decision back. */
  lemma InverseLaw<E>(g: Grepper<E>, element: E)
    ensures Grep(InverseGrepper(g), element) == !Grep(g, element)
    ensures Grep(InverseGrepper(InverseGrepper(g)), element) == Grep(g, element)
  {
  }

  /** `ORGrepper` accepts iff at least one client accepts; an empty one rejects. */
  lemma OrLaw<E>(cs: seq<Grepper<E>>, element: E)
    ensures Grep(OrGrepper(cs), element) <==> exists m :: 0 <= m < |cs| && Grep(cs[m], element)
    ensures cs == [] ==> !Grep(OrGrepper(cs), element)
  {
    var r := OrScan(cs, element, 0);
    if !r.decision {
      forall m | 0 <= m < |cs| ensures !Grep(cs[m], element) {
      }
    }
  }

  /** `ANDGrepper` accepts iff every client accepts; an empty one accepts. */
  lemma AndLaw<E>(cs: seq<Grepper<E>>, element: E)
    ensures Grep(AndGrepper(cs), element) <==> forall m :: 0 <= m < |cs| ==> Grep(cs[m], element)
    ensures cs == [] ==> Grep(AndGrepper(cs), element)
  {
    var r := AndScan(cs, element, 0);
    if r.decision {
      forall m | 0 <= m < |cs| ensures Grep(cs[m], element) {
      }
    }
  }

  /** Short circuit: `ORGrepper` asks exactly the clients up to and including the
      first one that accepts (all of them when none does), in list order. */
  lemma OrShortCircuit<E>(cs: seq<Grepper<E>>, element: E, m: nat)
    requires m < |cs| && Grep(cs[m], element)
    requires forall k :: 0 <= k < m ==> !Grep(cs[k], element)
    ensures OrScan(cs, element, 0) == Scan(true, m + 1)
  {
  }

  /** Short circuit: `ANDGrepper` asks exactly the clients up to and including the
      first one that rejects (all of them when none does), in list order. */
  lemma AndShortCircuit<E>(cs: seq<Grepper<E>>, element: E, m: nat)
    requires m < |cs| && !Grep(cs[m], element)
    requires forall k :: 0 <= k < m ==> Grep(cs[k], element)
    ensures AndScan(cs, element, 0) == Scan(false, m + 1)
  {
  }
}
