/** The connection states of tpp-client/tpp_fsm.h. A control block keeps its state as a plain
    integer; the five named values are ordered so that the states before the connection is
    established come first and the states that have seen the peer's SYN come last. */
module TppFsm {
  const TppsClosed: int := 0
  const TppsListen: int := 1
  const TppsSynSent: int := 2
  const TppsSynReceived: int := 3
  const TppsEstablished: int := 4

  /** One of the five named states. */
  predicate IsState(s: int) {
    s == TppsClosed || s == TppsListen || s == TppsSynSent || s == TppsSynReceived
    || s == TppsEstablished
  }

  /** `TPPS_HAVERCVDSYN(s)`: the state is SYN_RECEIVED or later. */
  predicate HaveRcvdSyn(s: int) {
    s >= TppsSynReceived
  }

  /** Among the named states, exactly SYN_RECEIVED and ESTABLISHED have received a SYN. */
  lemma HaveRcvdSynStates(s: int)
    requires IsState(s)
    ensures HaveRcvdSyn(s) <==> (s == TppsSynReceived || s == TppsEstablished)
  {
  }

  /** Among the named states, those below ESTABLISHED are exactly the ones not established. */
  lemma BelowEstablished(s: int)
    requires IsState(s)
    ensures s < TppsEstablished <==> s != TppsEstablished
  {
  }

  /** CLOSED < LISTEN < SYN_SENT < SYN_RECEIVED < ESTABLISHED, hence all five differ, and they
      are 0 to 4. */
  lemma StatesOrdered()
    ensures TppsClosed < TppsListen < TppsSynSent < TppsSynReceived < TppsEstablished
    ensures forall s :: IsState(s) <==> 0 <= s <= 4
  {
  }
}
