/** The certificates a client retains so that it can load them again. */
module TrustedCertificates {
  import opened Wire

  datatype Cert = Cert(data: Bytes, path: string, kind: int, format: int)

  function Retain(trusted: seq<Cert>, cert: Cert): seq<Cert> {
    if cert in trusted then trusted else trusted + [cert]
  }

  /** What is retained after loading `loaded` in this order. */
  function Retained(loaded: seq<Cert>): seq<Cert> {
    if loaded == [] then [] else Retain(Retained(loaded[..|loaded| - 1]), loaded[|loaded| - 1])
  }

  class TrustedList {
    var trusted: seq<Cert>

    constructor ()
      ensures trusted == []
    {
      trusted := [];
    }

    /** rememberTrustedCertificate: compares field by field with every retained certificate. */
    method Remember(cert: Cert)
      modifies this
      ensures trusted == Retain(old(trusted), cert)
    {
      for i := 0 to |trusted|
        invariant cert !in trusted[..i] && trusted == old(trusted)
      {
        var previous := trusted[i];
        if cert.path == previous.path && cert.kind == previous.kind && cert.format == previous.format &&
           cert.data == previous.data {
          assert cert == trusted[i];
          return;
        }
        assert trusted[..i + 1] == trusted[..i] + [previous];
      }
      assert trusted[..|trusted|] == trusted;
      trusted := trusted + [cert];
    }
  }

  /** The position of a certificate's first load. */
  ghost function FirstLoad(loaded: seq<Cert>, cert: Cert): (k: nat)
    requires cert in loaded
    ensures k < |loaded| && loaded[k] == cert && forall i :: 0 <= i < k ==> loaded[i] != cert
  {
    if loaded[0] == cert then 0
    else
      assert cert in loaded[1..];
      FirstLoad(loaded[1..], cert) + 1
  }

  /** A list holds exactly the loaded certificates, once each, in the order of their first loads. */
  ghost predicate InFirstLoadOrder(trusted: seq<Cert>, loaded: seq<Cert>) {
    && (forall c :: c in trusted <==> c in loaded)
    && (forall i, j :: 0 <= i < j < |trusted| ==> FirstLoad(loaded, trusted[i]) < FirstLoad(loaded, trusted[j]))
  }

  lemma FirstLoadOfPrefix(loaded: seq<Cert>, last: Cert, cert: Cert)
    requires cert in loaded
    ensures FirstLoad(loaded + [last], cert) == FirstLoad(loaded, cert)
  {
    var k, m := FirstLoad(loaded, cert), FirstLoad(loaded + [last], cert);
    assert (loaded + [last])[k] == cert;
  }

  lemma {:induction false} RetainedOrder(loaded: seq<Cert>)
    ensures InFirstLoadOrder(Retained(loaded), loaded)
  {
    if loaded != [] {
      var init, last := loaded[..|loaded| - 1], loaded[|loaded| - 1];
      assert loaded == init + [last];
      RetainedOrder(init);
      RetainKeepsOrder(Retained(init), init, last);
    }
  }

  lemma RetainKeepsOrder(trusted: seq<Cert>, loaded: seq<Cert>, last: Cert)
    requires InFirstLoadOrder(trusted, loaded)
    ensures InFirstLoadOrder(Retain(trusted, last), loaded + [last])
  {
    var after, all := Retain(trusted, last), loaded + [last];
    forall i, j | 0 <= i < j < |after|
      ensures after[i] in all && after[j] in all && FirstLoad(all, after[i]) < FirstLoad(all, after[j])
    {
      assert after[i] == trusted[i] && trusted[i] in trusted;
      FirstLoadOfPrefix(loaded, last, after[i]);
      if j < |trusted| {
        assert trusted[j] in trusted;
        FirstLoadOfPrefix(loaded, last, after[j]);
      }
    }
  }

  /** In particular nothing is retained twice. */
  lemma NoDuplicates(trusted: seq<Cert>, loaded: seq<Cert>, i: nat, j: nat)
    requires InFirstLoadOrder(trusted, loaded) && i < j < |trusted|
    ensures trusted[i] != trusted[j]
  {
    assert trusted[i] in trusted;
  }
}
