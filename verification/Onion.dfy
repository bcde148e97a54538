/** Version 3 onion addresses. */
module Onion {
  import opened Bytes
  import opened Ascii

  const LABEL_LEN: nat := 56
  const HOST_LEN: nat := 62

  /** ".onion" */
  const SUFFIX: bytes := [0x2e, 0x6f, 0x6e, 0x69, 0x6f, 0x6e]

  predicate LabelByte(c: byte) { 0x61 <= c <= 0x7a || 0x32 <= c <= 0x37 }

  predicate Base32Label(name: bytes) { forall i :: 0 <= i < |name| ==> LabelByte(name[i]) }

  predicate IsHost(h: bytes) {
    && |h| == HOST_LEN
    && h[LABEL_LEN..] == SUFFIX
    && forall i :: 0 <= i < LABEL_LEN ==> LabelByte(h[i])
  }

  type Port = p: int | 0 <= p < U16_RANGE
  type OnionPort = p: Port | p != 0 witness 1
  type OnionHost = h: bytes | IsHost(h) witness seq(LABEL_LEN, _ => 0x61) + SUFFIX

  datatype OnionAddress = OnionAddress(host: OnionHost, port: OnionPort)

  /** `OnionAddress::new` on ASCII text. */
  function NewOnion(text: bytes, port: Port): Option<OnionAddress> {
    var host := Lower(Trim(text));
    if |host| < |SUFFIX| || host[|host| - |SUFFIX|..] != SUFFIX then None
    else
      var name := host[..|host| - |SUFFIX|];
      if |name| != LABEL_LEN || !Base32Label(name) || port == 0 then None
      else
        assert forall i :: 0 <= i < LABEL_LEN ==> host[i] == name[i];
        Some(OnionAddress(host, port))
  }

  lemma HostIsLower(h: bytes)
    requires IsHost(h)
    ensures Lower(h) == h
  {
    forall i | 0 <= i < HOST_LEN ensures LowerByte(h[i]) == h[i] {
      if i >= LABEL_LEN { assert h[i] == h[LABEL_LEN..][i - LABEL_LEN] == SUFFIX[i - LABEL_LEN]; }
    }
  }

  /** Trimming leaves alone what reads as a host. */
  lemma NothingToTrim(text: bytes)
    requires IsHost(Lower(text))
    ensures Trim(text) == text
  {
    var h := Lower(text);
    assert h[HOST_LEN - 1] == h[LABEL_LEN..][5] == SUFFIX[5];
    assert LabelByte(h[0]);
    TrimPadded([], text, []);
    assert [] + text + [] == text;
  }

  lemma AcceptsHost(text: bytes, o: OnionAddress)
    requires Lower(Trim(text)) == o.host
    ensures NewOnion(text, o.port) == Some(o)
  {
    var name := o.host[..LABEL_LEN];
    assert Base32Label(name);
  }

  lemma OnlyTheHost(text: bytes, port: Port)
    requires NewOnion(text, port).Some?
    ensures var o := NewOnion(text, port).value; o.host == Lower(Trim(text)) && o.port == port
  {
  }

  /** Accepted are exactly the texts that are a host up to case and outer white space. */
  lemma NewOnionExactly(text: bytes, port: Port, o: OnionAddress)
    ensures NewOnion(text, port) == Some(o) <==> o.host == Lower(Trim(text)) && o.port == port
  {
    if NewOnion(text, port) == Some(o) { OnlyTheHost(text, port); }
    if o.host == Lower(Trim(text)) && o.port == port { AcceptsHost(text, o); }
  }

  /** In a field as wide as a host there is no room for white space. */
  lemma FixedWidthOnion(text: bytes, port: Port, o: OnionAddress)
    requires |text| == HOST_LEN
    ensures NewOnion(text, port) == Some(o) <==> o.host == Lower(text) && o.port == port
  {
    NewOnionExactly(text, port, o);
    if NewOnion(text, port) == Some(o) { TrimKeepsLength(text); }
    if o.host == Lower(text) { NothingToTrim(text); }
  }
}
