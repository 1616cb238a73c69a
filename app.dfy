/**
 * The main screen: the selection the user builds with the document pickers,
 * the PIN check that decides the server's token, the choice of the LAN
 * address the QR code points at, and the first URL it encodes.
 *
 * The network interfaces, the content resolver's answers and the random
 * draws are parameters; toasts are returned as their text.
 */
module App {
  import opened Wrappers
  import opened Text
  import opened Media
  import opened ContentScanner

  /**
   * `^\d{4,6}$` under `matches`: four to six digits and nothing else. Only
   * ASCII digits are accepted here; Android's ICU-backed `\d` also matches the
   * other Unicode decimal digits.
   */
  predicate IsValidPin(s: string) {
    4 <= |s| <= 6 && AllDigits(s)
  }

  /** Each draw of `Random.nextInt(0, 10)`, rendered by `toString`, in order. */
  function DigitString(draws: seq<nat>): (r: string)
    requires forall i :: 0 <= i < |draws| ==> draws[i] < 10
    ensures |r| == |draws|
    ensures forall i :: 0 <= i < |draws| ==> r[i] == DigitChar(draws[i])
  {
    if draws == [] then [] else [DigitChar(draws[0])] + DigitString(draws[1..])
  }

  /** `randomPin`: six draws from 0..9 joined without separator; each character denotes its draw. */
  function RandomPin(draws: seq<nat>): (pin: string)
    requires |draws| == 6 && forall i :: 0 <= i < 6 ==> draws[i] < 10
    ensures |pin| == 6 && IsValidPin(pin)
    ensures forall i :: 0 <= i < 6 ==> IsDigit(pin[i]) && DigitValue(pin[i]) == draws[i]
  {
    DigitString(draws)
  }

  /** A character `.` does not match in a Java regular expression. */
  predicate IsLineTerminator(c: char) {
    c == '\n' || c == '\r' || c == '\U{85}' || c == '\U{2028}' || c == '\U{2029}'
  }

  /** The second octet of `172\.(1[6-9]|2[0-9]|3[0-1])`, as two characters. */
  predicate IsPrivate172Octet(a: char, b: char) {
    (a == '1' && '6' <= b <= '9') || (a == '2' && '0' <= b <= '9') || (a == '3' && '0' <= b <= '1')
  }

  /** `^172\.(1[6-9]|2[0-9]|3[0-1])\..*` matched against the whole host. */
  predicate Matches172(h: string) {
    |h| >= 7 && h[..4] == "172." && IsPrivate172Octet(h[4], h[5]) && h[6] == '.'
    && forall i :: 7 <= i < |h| ==> !IsLineTerminator(h[i])
  }

  /** The host filter of `localIpAddress`. */
  predicate IsPrivateHost(h: string) {
    StartsWith(h, "10.") || StartsWith(h, "192.168.") || Matches172(h)
  }

  /** An interface address as `localIpAddress` reads it. */
  datatype Address = Address(hostAddress: Option<string>, isLoopbackAddress: bool)

  /** A network interface: whether it is up, whether it is a loopback, and its addresses in order. */
  datatype Interface = Interface(isUp: bool, isLoopback: bool, addresses: seq<Address>)

  predicate Usable(intf: Interface) {
    intf.isUp && !intf.isLoopback
  }

  /** An address whose host `localIpAddress` returns. */
  predicate Acceptable(a: Address) {
    a.hostAddress.Some? && !a.isLoopbackAddress && ':' !in a.hostAddress.value && IsPrivateHost(a.hostAddress.value)
  }

  /** The first acceptable host among `addrs`. */
  function FirstAcceptable(addrs: seq<Address>): Option<string> {
    if addrs == [] then None
    else if Acceptable(addrs[0]) then addrs[0].hostAddress
    else FirstAcceptable(addrs[1..])
  }

  /** The first acceptable host of the first usable interface that has one. */
  function FirstPrivateHost(ifaces: seq<Interface>): Option<string> {
    if ifaces == [] then None
    else if Usable(ifaces[0]) && FirstAcceptable(ifaces[0].addresses).Some? then FirstAcceptable(ifaces[0].addresses)
    else FirstPrivateHost(ifaces[1..])
  }

  /** `localIpAddress`: the two nested loops with their `continue`s and early return. */
  method LocalIpAddress(ifaces: seq<Interface>) returns (r: Option<string>)
    ensures r == FirstPrivateHost(ifaces)
  {
    var i := 0;
    while i < |ifaces|
      invariant 0 <= i <= |ifaces|
      invariant FirstPrivateHost(ifaces) == FirstPrivateHost(ifaces[i..])
    {
      assert ifaces[i..][1..] == ifaces[i + 1..];
      var intf := ifaces[i];
      if intf.isUp && !intf.isLoopback {
        var addrs := intf.addresses;
        var j := 0;
        while j < |addrs|
          invariant 0 <= j <= |addrs|
          invariant FirstAcceptable(addrs) == FirstAcceptable(addrs[j..])
        {
          assert addrs[j..][1..] == addrs[j + 1..];
          var addr := addrs[j];
          if addr.hostAddress.Some? && !addr.isLoopbackAddress && ':' !in addr.hostAddress.value {
            var host := addr.hostAddress.value;
            if StartsWith(host, "10.") || StartsWith(host, "192.168.") || Matches172(host) {
              return Some(host);
            }
          }
          j := j + 1;
        }
        assert addrs[j..] == [];
      }
      i := i + 1;
    }
    assert ifaces[i..] == [];
    r := None;
  }

  /** A chosen host is private IPv4 and belongs to a usable interface. */
  lemma {:induction false} FirstAcceptableSound(addrs: seq<Address>)
    ensures FirstAcceptable(addrs).Some? ==>
              exists j :: 0 <= j < |addrs| && Acceptable(addrs[j]) && addrs[j].hostAddress == FirstAcceptable(addrs)
    ensures FirstAcceptable(addrs).None? <==> forall j :: 0 <= j < |addrs| ==> !Acceptable(addrs[j])
  {
    if addrs != [] {
      FirstAcceptableSound(addrs[1..]);
      if !Acceptable(addrs[0]) && FirstAcceptable(addrs).Some? {
        var j :| 0 <= j < |addrs[1..]| && Acceptable(addrs[1..][j]) && addrs[1..][j].hostAddress == FirstAcceptable(addrs);
        assert addrs[j + 1] == addrs[1..][j];
      }
      if FirstAcceptable(addrs).None? {
        forall j | 0 <= j < |addrs|
          ensures !Acceptable(addrs[j])
        {
          if j > 0 {
            assert addrs[j] == addrs[1..][j - 1];
          }
        }
      }
    }
  }

  /**
   * `localIpAddress` returns a host without `:` that passes the private-range
   * filter and sits on an interface that is up and not a loopback; it returns
   * null exactly when no usable interface has such an address.
   */
  lemma {:induction false} FirstPrivateHostSound(ifaces: seq<Interface>)
    ensures FirstPrivateHost(ifaces).Some? ==>
              var h := FirstPrivateHost(ifaces).value;
              ':' !in h && IsPrivateHost(h)
              && exists i, j :: 0 <= i < |ifaces| && Usable(ifaces[i]) && 0 <= j < |ifaces[i].addresses|
                                && Acceptable(ifaces[i].addresses[j]) && ifaces[i].addresses[j].hostAddress == Some(h)
    ensures FirstPrivateHost(ifaces).None? <==>
              forall i, j :: 0 <= i < |ifaces| && Usable(ifaces[i]) && 0 <= j < |ifaces[i].addresses| ==>
                             !Acceptable(ifaces[i].addresses[j])
  {
    if ifaces != [] {
      var head := ifaces[0];
      FirstAcceptableSound(head.addresses);
      FirstPrivateHostSound(ifaces[1..]);
      if !(Usable(head) && FirstAcceptable(head.addresses).Some?) {
        if FirstPrivateHost(ifaces).Some? {
          var h := FirstPrivateHost(ifaces).value;
          var i, j :| 0 <= i < |ifaces[1..]| && Usable(ifaces[1..][i]) && 0 <= j < |ifaces[1..][i].addresses|
                      && Acceptable(ifaces[1..][i].addresses[j]) && ifaces[1..][i].addresses[j].hostAddress == Some(h);
          assert ifaces[i + 1] == ifaces[1..][i];
        } else {
          forall i, j | 0 <= i < |ifaces| && Usable(ifaces[i]) && 0 <= j < |ifaces[i].addresses|
            ensures !Acceptable(ifaces[i].addresses[j])
          {
            if i > 0 {
              assert ifaces[i] == ifaces[1..][i - 1];
            }
          }
        }
      } else {
        var j :| 0 <= j < |head.addresses| && Acceptable(head.addresses[j]) && head.addresses[j].hostAddress == FirstAcceptable(head.addresses);
        assert Usable(ifaces[0]) && ifaces[0].addresses[j].hostAddress == FirstPrivateHost(ifaces);
      }
    }
  }

  /** Ranges the filter admits and one it refuses. */
  lemma PrivateHostExamples()
    ensures IsPrivateHost("192.168.1.20") && IsPrivateHost("10.0.0.7") && IsPrivateHost("172.16.0.1")
    ensures !IsPrivateHost("172.32.0.1") && !IsPrivateHost("8.8.8.8")
  {
    assert "192.168.1.20"[..8] == "192.168.";
    assert "10.0.0.7"[..3] == "10.";
    assert "172.16.0.1"[..4] == "172.";
    assert "172.32.0.1"[1] == '7' && "172.32.0.1"[4] == '3';
    assert "8.8.8.8"[0] == '8' && "8.8.8.8"[1] == '.';
  }

  /** The URL the QR code encodes: the token travels as `t` in the query only when there is one. */
  function FirstUrl(ip: string, port: nat, token: Option<string>): (url: string)
    ensures StartsWith(url, "http://" + ip + ":" + NatToString(port))
    ensures token.None? ==> url == "http://" + ip + ":" + NatToString(port)
    ensures token.Some? ==> url == "http://" + ip + ":" + NatToString(port) + "/?t=" + token.value
  {
    var base := "http://" + ip + ":" + NatToString(port);
    if token.Some? then base + "/?t=" + token.value else base
  }

  /** What the content resolver says about one picked document: its display name and its type. */
  datatype Pick = Pick(uri: Uri, displayName: Option<string>, mimeType: Option<string>)

  const DEFAULT_FILE_NAME: string := "file.bin"
  const GENERIC_MIME: string := "application/octet-stream"
  const DEFAULT_PORT: nat := 8080
  const FOLDER_DEPTH: int := 3

  const INVALID_PIN_TOAST: string := "PIN non valido. Inserisci 4\U{2013}6 cifre."
  const NO_IP_TOAST: string := "Non riesco a rilevare l'IP sulla LAN"
  const STARTED_TOAST: string := "Server attivo. QR pronto per la scansione."
  const NO_MEDIA_TOAST: string := "Nessun file multimediale trovato"
  const STOPPED_TOAST: string := "Server fermato"

  /** The token the start button derives from the PIN switch and field, or `None` to refuse the start. */
  function TokenFromInput(pinSwitch: bool, pinText: Option<string>): (r: Option<Option<string>>)
    ensures !pinSwitch ==> r == Some(None)
    ensures pinSwitch ==> (r.Some? <==> IsValidPin(Trim(pinText.GetOr(""))))
    ensures r.Some? && r.value.Some? ==> IsValidPin(r.value.value)
    ensures pinSwitch && IsValidPin(Trim(pinText.GetOr(""))) ==> r == Some(Some(Trim(pinText.GetOr(""))))
  {
    if !pinSwitch then Some(None)
    else
      var raw := Trim(pinText.GetOr(""));
      if IsValidPin(raw) then Some(Some(raw)) else None
  }

  /** The initial PIN, left as it is, lets the server start with that PIN as its token. */
  lemma RandomPinStarts(draws: seq<nat>)
    requires |draws| == 6 && forall i :: 0 <= i < 6 ==> draws[i] < 10
    ensures TokenFromInput(true, Some(RandomPin(draws))) == Some(Some(RandomPin(draws)))
  {
    var pin := RandomPin(draws);
    assert IsDigit(pin[0]) && IsDigit(pin[5]);
    TrimUnpadded(pin);
  }

  class MainActivity {
    var selected: seq<SelectedItem>
    var token: Option<string>
    const port: nat
    /** The first URL on screen (and in the QR code), `None` while stopped. */
    var url: Option<string>
    /** What the last start handed to the sharing service: the selection and the token. */
    var service: Option<(seq<SelectedItem>, Option<string>)>

    /** A token the activity holds is always a valid PIN. */
    ghost predicate Valid()
      reads this
    {
      token.Some? ==> IsValidPin(token.value)
    }

    constructor ()
      ensures Valid() && selected == [] && token == None && port == DEFAULT_PORT
      ensures url == None && service == None
    {
      selected := [];
      token := None;
      port := DEFAULT_PORT;
      url := None;
      service := None;
    }

    /**
     * The multi-document picker's callback: a non-empty pick replaces the
     * selection, one item per document in order, with `file.bin` and
     * `application/octet-stream` for what the resolver does not know; an
     * empty pick changes nothing.
     */
    method OnPicked(picks: seq<Pick>)
      requires Valid()
      modifies this
      ensures Valid() && token == old(token) && url == old(url) && service == old(service)
      ensures picks == [] ==> selected == old(selected)
      ensures picks != [] ==> |selected| == |picks|
      ensures picks != [] ==> forall i :: 0 <= i < |picks| ==>
                selected[i] == SelectedItem(picks[i].uri, picks[i].displayName.GetOr(DEFAULT_FILE_NAME),
                                            picks[i].mimeType.GetOr(GENERIC_MIME))
    {
      if picks != [] {
        selected := [];
        var i := 0;
        while i < |picks|
          invariant 0 <= i <= |picks| && |selected| == i
          invariant token == old(token) && url == old(url) && service == old(service)
          invariant forall k :: 0 <= k < i ==>
                      selected[k] == SelectedItem(picks[k].uri, picks[k].displayName.GetOr(DEFAULT_FILE_NAME),
                                                  picks[k].mimeType.GetOr(GENERIC_MIME))
        {
          var p := picks[i];
          selected := selected + [SelectedItem(p.uri, p.displayName.GetOr(DEFAULT_FILE_NAME), p.mimeType.GetOr(GENERIC_MIME))];
          i := i + 1;
        }
      }
    }

    /**
     * The folder picker's callback: a granted tree is scanned three levels
     * deep; a scan that finds media replaces the selection, one that finds
     * none leaves it and says so. A cancelled pick changes nothing.
     */
    method OnFolderPicked(granted: bool, root: Option<Doc>) returns (toast: Option<string>)
      requires Valid()
      modifies this
      ensures Valid() && token == old(token) && url == old(url) && service == old(service)
      ensures selected == (if granted && Scanned(root, FOLDER_DEPTH) != [] then Scanned(root, FOLDER_DEPTH) else old(selected))
      ensures toast == (if granted && Scanned(root, FOLDER_DEPTH) == [] then Some(NO_MEDIA_TOAST) else None)
    {
      if !granted {
        return None;
      }
      var found := ScanMedia(root, FOLDER_DEPTH);
      if found == [] {
        return Some(NO_MEDIA_TOAST);
      }
      selected := found;
      toast := None;
    }

    /**
     * `onStartClicked` followed by `startServer` (every permission branch ends
     * there): an invalid PIN with the switch on changes nothing; otherwise the
     * token is set, and when a LAN address exists the service gets the
     * selection and the token and the screen shows the first URL.
     */
    method OnStartClicked(pinSwitch: bool, pinText: Option<string>, ifaces: seq<Interface>) returns (toast: string)
      requires Valid()
      modifies this
      ensures Valid() && selected == old(selected)
      ensures TokenFromInput(pinSwitch, pinText).None? ==>
                toast == INVALID_PIN_TOAST && token == old(token) && url == old(url) && service == old(service)
      ensures TokenFromInput(pinSwitch, pinText).Some? ==> token == TokenFromInput(pinSwitch, pinText).value
      ensures TokenFromInput(pinSwitch, pinText).Some? && FirstPrivateHost(ifaces).None? ==>
                toast == NO_IP_TOAST && url == old(url) && service == old(service)
      ensures TokenFromInput(pinSwitch, pinText).Some? && FirstPrivateHost(ifaces).Some? ==>
                toast == STARTED_TOAST && service == Some((selected, token))
                && url == Some(FirstUrl(FirstPrivateHost(ifaces).value, port, token))
    {
      var chosen := TokenFromInput(pinSwitch, pinText);
      if chosen.None? {
        return INVALID_PIN_TOAST;
      }
      token := chosen.value;
      toast := StartServer(ifaces);
    }

    /** `startServer`: without a LAN address nothing starts; otherwise the service and the URL. */
    method StartServer(ifaces: seq<Interface>) returns (toast: string)
      requires Valid()
      modifies this
      ensures Valid() && selected == old(selected) && token == old(token)
      ensures FirstPrivateHost(ifaces).None? ==> toast == NO_IP_TOAST && url == old(url) && service == old(service)
      ensures FirstPrivateHost(ifaces).Some? ==>
                toast == STARTED_TOAST && service == Some((selected, token))
                && url == Some(FirstUrl(FirstPrivateHost(ifaces).value, port, token))
    {
      var ip := LocalIpAddress(ifaces);
      if ip.None? {
        return NO_IP_TOAST;
      }
      service := Some((selected, token));
      url := Some(FirstUrl(ip.value, port, token));
      toast := STARTED_TOAST;
    }

    /** `stopServer`: the service stops and the URL is cleared. */
    method StopServer() returns (toast: string)
      requires Valid()
      modifies this
      ensures Valid() && selected == old(selected) && token == old(token)
      ensures service == None && url == None && toast == STOPPED_TOAST
    {
      service := None;
      url := None;
      toast := STOPPED_TOAST;
    }
  }
}
