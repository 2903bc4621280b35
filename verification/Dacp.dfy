/** The credential checks and the mutex-guarded state of src/dacp_state.c. */
module Dacp {
  import opened Words
  import opened Scan
  import opened DacpModel

  predicate IsHex(b: Byte)
    ensures IsHex(b) <==> || '0' as int <= b <= '9' as int
                          || 'a' as int <= b <= 'f' as int || 'A' as int <= b <= 'F' as int
  {
    IsDigit(b) || 97 <= b <= 102 || 65 <= b <= 70
  }

  function Upper(b: Byte): (u: Byte)
    ensures u == if 'a' as int <= b <= 'z' as int then 'A' as int + (b - 'a' as int) else b
  {
    if 97 <= b <= 122 then b - 32 else b
  }

  /** dacp_normalize_id: one to sixteen hexadecimal digits, in upper case. */
  method NormalizeId(text: Text) returns (r: Option<Text>)
    ensures r.Some? <==> 1 <= |text| <= 16 && forall i :: 0 <= i < |text| ==> IsHex(text[i])
    ensures r.Some? ==> |r.value| == |text| && forall i :: 0 <= i < |text| ==> r.value[i] == Upper(text[i])
  {
    if |text| == 0 || |text| > 16 { return None; }
    var out: Text := [];
    for i := 0 to |text|
      invariant |out| == i
      invariant forall k :: 0 <= k < i ==> IsHex(text[k]) && out[k] == Upper(text[k])
    {
      if !IsHex(text[i]) { return None; }
      out := out + [Upper(text[i])];
    }
    return Some(out);
  }

  /** The leading decimal digits of a text. */
  function LeadingDigits(text: Text): (n: nat)
    ensures n <= |text| && AllDigits(text[..n]) && (n < |text| ==> !IsDigit(text[n]))
    decreases |text|
  {
    if text == [] || !IsDigit(text[0]) then 0 else 1 + LeadingDigits(text[1..])
  }

  const TOKEN_CAP: nat := 32

  /** dacp_sanitize_token: the leading digits, refused when there are none or they do not fit with their NUL. */
  method SanitizeToken(text: Text) returns (r: Option<Text>)
    ensures var n := LeadingDigits(text);
            r == if 1 <= n < TOKEN_CAP then Some(text[..n]) else None
  {
    var j: nat := 0;
    while j < |text| && IsDigit(text[j])
      invariant j <= |text| && j < TOKEN_CAP && AllDigits(text[..j])
    {
      if j + 1 >= TOKEN_CAP {
        DigitsReach(text, j + 1);
        return None;
      }
      j := j + 1;
    }
    DigitsReach(text, j);
    if j == 0 { return None; }
    return Some(text[..j]);
  }

  lemma {:induction false} DigitsReach(text: Text, j: nat)
    requires j <= |text| && AllDigits(text[..j])
    ensures LeadingDigits(text) >= j
    decreases j
  {
    if j > 0 {
      assert text[..j][0] == text[0];
      assert text[1..][..j - 1] == text[..j][1..];
      DigitsReach(text[1..], j - 1);
    }
  }

  class DacpState {
    var generation: nat
    var haveCreds: bool
    var id: Text
    var token: Text
    var peer: int
    var port: nat
    var portGen: nat

    function View(): State
      reads this
    {
      State(generation, haveCreds, id, token, peer, port, portGen)
    }

    constructor ()
      ensures View() == ZERO
    {
      generation, haveCreds, id, token, peer, port, portGen := 0, false, [], [], 0, 0, 0;
    }

    /** dacp_state_new_session */
    method Renew()
      modifies this
      ensures View() == NewSession(old(View()))
    {
      generation := generation + 1;
      haveCreds, id, token, peer, port, portGen := false, [], [], 0, 0, 0;
    }

    /** dacp_state_capture: credentials are taken only when both texts pass their checks. */
    method Take(idText: Text, tokenText: Text, from: int) returns (creds: Option<(Text, Text)>)
      modifies this
      ensures View() == Capture(old(View()), creds, from)
      ensures creds.Some? <==>
                && 1 <= |idText| <= 16 && (forall i :: 0 <= i < |idText| ==> IsHex(idText[i]))
                && 1 <= LeadingDigits(tokenText) < TOKEN_CAP
      ensures creds.Some? ==>
                && |creds.value.0| == |idText|
                && (forall i :: 0 <= i < |idText| ==> creds.value.0[i] == Upper(idText[i]))
                && creds.value.1 == tokenText[..LeadingDigits(tokenText)]
    {
      var nid := NormalizeId(idText);
      var ntok := SanitizeToken(tokenText);
      creds := None;
      peer := from;
      if nid.Some? && ntok.Some? {
        creds := Some((nid.value, ntok.value));
        if !haveCreds || id != nid.value || token != ntok.value {
          port, portGen := 0, 0;
        }
        id, token, haveCreds := nid.value, ntok.value, true;
      }
    }

    /** dacp_state_publish_port */
    method Publish(gen: nat, found: nat)
      modifies this
      ensures View() == PublishPort(old(View()), gen, found)
    {
      if gen == generation {
        port, portGen := found, gen;
      }
    }

    /** The cached port of a snapshot, and the guard before a command is sent. */
    method Guard(snap: State) returns (live: State, send: bool)
      ensures live == View() && (send <==> StillValid(live, snap))
    {
      live := View();
      send := live.haveCreds && live.generation == snap.generation && live.peer == snap.peer
              && live.id == snap.id && live.token == snap.token;
    }
  }
}
