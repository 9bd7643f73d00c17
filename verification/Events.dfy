// Which address a conntrack event is charged to, from the fields of the connection: qmark_conntrack_event
// of kmod/qos_marktbl_main.c.

module Events {
  import opened Word32
  import opened TcIds
  import opened Model
  import opened Answers
  import opened PacketMark

  /**
   * The event is charged to this host: a DESTROY drops one reference to it, and takes the tc objects of
   * its mark down if that gives the mark back; a MARK that is no DESTROY counts one reference more if it
   * has an entry; anything else does nothing. No other address is touched.
   */
  ghost predicate Charged(s: State, o: Outcome, ev: ConnEvent, host: Ip)
    requires Structural(s)
  {
    if ev.destroy then
      && OneLess(s, o.state, host)
      && o.msgs == if host in s.table && LastOfMark(s, host) then DelMsgs(s.rules[s.table[host].id - 1], s.table[host].mark) else []
    else
      && o.msgs == []
      && o.state == if ev.markChanged && host in s.table
                    then s.(table := s.table[host := s.table[host].(count := s.table[host].count + 1)]) else s
  }

  /** A connection that the handler looks at is tracked, of IPv4, and has a mark under 0xfff800. */
  predicate Watched(c: Conn) { c.Conn? && c.ipv4 && !c.untracked && Field(c.ctMark, 0xfff800) != 0 }

  /**
   * The event is charged to the original source if the reply comes from the original destination, and to
   * the source of the reply otherwise. An event of any other connection does nothing.
   */
  lemma EventCharges(s: State, ev: ConnEvent)
    requires Structural(s)
    ensures Watched(ev.conn) && ev.conn.replySrc == ev.conn.origDst ==> Charged(s, Event(s, ev), ev, ev.conn.origSrc)
    ensures Watched(ev.conn) && ev.conn.replySrc != ev.conn.origDst ==> Charged(s, Event(s, ev), ev, ev.conn.replySrc)
    ensures !Watched(ev.conn) ==> Event(s, ev) == Outcome(s, OK, 0, [])
  {
    if ev.conn.Conn? { EventMask(ev.conn.ctMark); }
    if Watched(ev.conn) {
      ReleaseLeaves(s, if ev.conn.replySrc == ev.conn.origDst then ev.conn.origSrc else ev.conn.replySrc);
    }
  }

  /** The connection carries the mark of this offset, as the packet handler gives it to packets. */
  predicate Carries(c: Conn, off: nat) { c.Conn? && c.ipv4 && !c.untracked && 1 <= off < 0x2000 && c.ctMark == 2048 * off }

  lemma CarriesWatched(c: Conn, off: nat)
    requires Carries(c, off)
    ensures Watched(c)
  {
    EventMask(c.ctMark);
  }

  /** A host behind source address translation, or behind none: it opened the connection, and whom it called answers. */
  lemma CallerIsCharged(s: State, ev: ConnEvent, off: nat, host: Ip, peer: Ip)
    requires Structural(s) && Carries(ev.conn, off)
    requires ev.conn.origSrc == host && ev.conn.origDst == peer && ev.conn.replySrc == peer
    ensures Charged(s, Event(s, ev), ev, host)
  {
    CarriesWatched(ev.conn, off);
    EventCharges(s, ev);
  }

  /** A host behind destination address translation: it answers in place of the address that was called. */
  lemma ServerIsCharged(s: State, ev: ConnEvent, off: nat, host: Ip, called: Ip)
    requires Structural(s) && Carries(ev.conn, off)
    requires ev.conn.replySrc == host && ev.conn.origDst == called && called != host
    ensures Charged(s, Event(s, ev), ev, host)
  {
    CarriesWatched(ev.conn, off);
    EventCharges(s, ev);
  }
}
