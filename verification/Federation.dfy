/**
 * pkg/daemon/federation.go and the recipient dispatch of pkg/daemon/api_multi.go: which kind of
 * recipient a string is.
 */
module Federation {
  import opened Bytes
  import Address
  import Base58
  import Names

  function HasSuffix(s: string, suffix: string): bool {
    |s| >= |suffix| && s[|s| - |suffix|..] == suffix
  }

  function TrimSuffix(s: string, suffix: string): string {
    if HasSuffix(s, suffix) then s[..|s| - |suffix|] else s
  }

  /** strings.LastIndex for one character; -1 when absent. */
  function LastIndex(s: string, c: char): (at: int)
    ensures -1 <= at < |s|
    ensures at >= 0 ==> s[at] == c
    ensures forall i :: at < i < |s| ==> s[i] != c
  {
    if s == "" then -1 else if s[|s| - 1] == c then |s| - 1 else LastIndex(s[..|s| - 1], c)
  }

  predicate AdmitsHost(host: string) {
    '.' in host || "localhost" <= host
  }

  /** parseFederatedAddress; two empty strings mean "not federated". */
  function ParseFederatedAddress(addr: string): (string, string) {
    if "dmail:" <= addr then ("", "")
    else if HasSuffix(addr, ".dmail") then ("", "")
    else
      var at := LastIndex(addr, '@');
      if at <= 0 || at >= |addr| - 1 then ("", "")
      else if !AdmitsHost(addr[at + 1..]) then ("", "")
      else (addr[..at], addr[at + 1..])
  }

  /** A user and a host come out exactly of the string that joins them, under the stated syntax. */
  lemma FederatedAddressesAreJoined(addr: string, user: string, host: string)
    requires user != ""
    ensures ParseFederatedAddress(addr) == (user, host) <==>
            && addr == user + "@" + host
            && host != "" && '@' !in host && ('.' in host || "localhost" <= host)
            && !("dmail:" <= addr) && !(|addr| >= 6 && addr[|addr| - 6..] == ".dmail")
  {
    hide LastIndex;
    if addr == user + "@" + host && '@' !in host {
      LastOfJoined(user, host);
    }
    if ParseFederatedAddress(addr) == (user, host) {
      JoinedOfLast(addr);
    }
  }

  lemma LastOfJoined(user: string, host: string)
    requires '@' !in host
    ensures var addr := user + "@" + host;
            LastIndex(addr, '@') == |user| && addr[..|user|] == user && addr[|user| + 1..] == host
  {
    hide LastIndex;
    var addr := user + "@" + host;
    assert addr[|user|] == '@';
    assert forall i :: |user| < i < |addr| ==> addr[i] == host[i - |user| - 1];
  }

  lemma JoinedOfLast(addr: string)
    requires LastIndex(addr, '@') >= 0
    ensures var at := LastIndex(addr, '@');
            addr == addr[..at] + "@" + addr[at + 1..] && '@' !in addr[at + 1..]
  {
    hide LastIndex;
    var at := LastIndex(addr, '@');
    assert addr == addr[..at] + [addr[at]] + addr[at + 1..];
    var host := addr[at + 1..];
    assert forall i :: 0 <= i < |host| ==> host[i] == addr[at + 1 + i];
  }

  // ---------- dispatch ----------

  datatype Recipient = Federated(user: string, host: string) | Named(name: string) | Direct(addr: string)

  /** handleMTSendMessage: federated first, then .dmail names, then plain addresses. */
  function Dispatch(recipient: string): Recipient {
    var (user, host) := ParseFederatedAddress(recipient);
    if user != "" then Federated(user, host)
    else if HasSuffix(recipient, ".dmail") then Named(Names.ToLower(TrimSuffix(recipient, ".dmail")))
    else Direct(recipient)
  }

  /** The letters A to Z turned to a to z, everything else left alone. */
  predicate IsLowered(s: string, r: string) {
    |r| == |s| && forall i :: 0 <= i < |s| ==> r[i] == if 'A' <= s[i] <= 'Z' then (s[i] as int + 32) as char else s[i]
  }

  /**
   * A recipient is taken for user@host under the syntax above, else for a name when it ends in
   * .dmail, else for an address as it stands.
   */
  lemma DispatchExactly(recipient: string, user: string, host: string, name: string, addr: string)
    ensures Dispatch(recipient) == Federated(user, host) <==> user != "" && ParseFederatedAddress(recipient) == (user, host)
    ensures Dispatch(recipient) == Named(name) <==>
            exists base: string :: recipient == base + ".dmail" && IsLowered(base, name)
    ensures Dispatch(recipient) == Direct(addr) <==>
            && addr == recipient && !(|recipient| >= 6 && recipient[|recipient| - 6..] == ".dmail")
            && forall u: string, h: string :: ParseFederatedAddress(recipient) == (u, h) ==> u == ""
  {
    hide LastIndex, AdmitsHost;
    var suffixed := HasSuffix(recipient, ".dmail");
    if suffixed {
      var base := recipient[..|recipient| - 6];
      assert recipient == base + ".dmail";
      LoweredIsToLower(base);
      if base': string :| recipient == base' + ".dmail" && IsLowered(base', name) {
        assert base' == base;
        assert name == Names.ToLower(base);
      }
    } else {
      forall base: string
        ensures recipient != base + ".dmail"
      {
        assert (base + ".dmail")[|base|..] == ".dmail";
      }
    }
  }

  lemma LoweredIsToLower(s: string)
    ensures IsLowered(s, Names.ToLower(s))
  {
  }

  /** A registered name with the .dmail suffix is looked up under that very name. */
  lemma NamesAreLookedUpUnchanged(name: string)
    requires Names.ValidateName(name).Ok?
    ensures Dispatch(name + ".dmail") == Named(name)
  {
    var full := name + ".dmail";
    assert full[|full| - 6..] == ".dmail";
    assert full[..|full| - 6] == name;
  }

  /** The address of a key is never taken for a federated address or a name. */
  lemma AddressesAreDirect(sha256: bytes -> Digest, key: bytes)
    ensures Dispatch(Address.Of(sha256, key)) == Direct(Address.Of(sha256, key))
  {
    var payload := key + sha256(key)[..4];
    var spelled := Base58.Encode(payload);
    var addr := Address.Of(sha256, key);
    assert addr == "dmail:" + spelled;
    NoDotInBase58(payload);
    if HasSuffix(addr, ".dmail") {
      assert addr[|addr| - 6] == ".dmail"[0];
      AddressHasNoDot(addr, spelled);
    }
  }

  lemma AddressHasNoDot(addr: string, spelled: string)
    requires addr == "dmail:" + spelled
    requires forall i :: 0 <= i < |spelled| ==> spelled[i] != '.'
    ensures forall i :: 0 <= i < |addr| ==> addr[i] != '.'
  {
    forall i | 0 <= i < |addr|
      ensures addr[i] != '.'
    {
      if i >= 6 {
        assert addr[i] == spelled[i - 6];
      } else {
        assert addr[i] == "dmail:"[i];
      }
    }
  }

  lemma NoDotInBase58(b: bytes)
    ensures forall i :: 0 <= i < |Base58.Encode(b)| ==> Base58.Encode(b)[i] != '.'
  {
    hide Base58.Convert;
    Base58.AlphabetIsATable();
  }
}
