/** Certificate files: PEM text with the blocks a decoder finds in it, and the paths they are kept under. */
module Pem {
  import opened Wrappers
  import opened Text
  import opened TimeText

  /** NotAfter has whole seconds and a four-digit year (section 4.1.2.5 of RFC 5280). */
  type NotAfter = t: int | InRange(t) && FloorSecond(t) == t witness 0

  /** A CERTIFICATE block has no NotAfter when it does not parse as X.509. */
  datatype Block = OtherBlock | CertificateBlock(notAfter: Option<NotAfter>)

  datatype Pem = Pem(raw: string, blocks: seq<Block>)

  /** What the ACME client returns. */
  datatype Issued = Issued(chain: Pem, key: Pem)

  /** The expiry of a chain: its first CERTIFICATE block decides, even when that block does not parse. */
  function Expiry(blocks: seq<Block>): Option<NotAfter> {
    if blocks == [] then None
    else if blocks[0].OtherBlock? then Expiry(blocks[1..])
    else blocks[0].notAfter
  }

  /** The first certificate block of the chain parses and has this NotAfter. */
  ghost predicate FirstCertificateExpires(blocks: seq<Block>, t: NotAfter) {
    exists i :: 0 <= i < |blocks| && blocks[i] == CertificateBlock(Some(t)) && OthersBefore(blocks, i)
  }

  predicate OthersBefore(blocks: seq<Block>, i: int)
    requires 0 <= i <= |blocks|
  {
    forall j :: 0 <= j < i ==> blocks[j].OtherBlock?
  }

  lemma {:induction false} FirstCertificateDecides(blocks: seq<Block>, i: int)
    requires 0 <= i < |blocks| && blocks[i].CertificateBlock? && OthersBefore(blocks, i)
    ensures Expiry(blocks) == blocks[i].notAfter
  {
    if i > 0 {
      FirstCertificateDecides(blocks[1..], i - 1);
    }
  }

  lemma {:induction false} NoCertificateNoExpiry(blocks: seq<Block>)
    requires OthersBefore(blocks, |blocks|)
    ensures Expiry(blocks) == None
  {
    if blocks != [] {
      NoCertificateNoExpiry(blocks[1..]);
    }
  }

  /** The index of the first certificate block, or the length. */
  lemma {:induction false} FirstCertificate(blocks: seq<Block>) returns (i: int)
    ensures 0 <= i <= |blocks| && OthersBefore(blocks, i) && (i < |blocks| ==> blocks[i].CertificateBlock?)
  {
    i := 0;
    while i < |blocks| && blocks[i].OtherBlock?
      invariant 0 <= i <= |blocks| && OthersBefore(blocks, i)
    {
      i := i + 1;
    }
  }

  /** A chain has an expiry exactly when its first certificate block does, and it is that one. */
  lemma ExpiryIff(blocks: seq<Block>, t: NotAfter)
    ensures Expiry(blocks) == Some(t) <==> FirstCertificateExpires(blocks, t)
  {
    var i := FirstCertificate(blocks);
    if i < |blocks| {
      FirstCertificateDecides(blocks, i);
    } else {
      NoCertificateNoExpiry(blocks);
    }
    if k :| 0 <= k < |blocks| && blocks[k] == CertificateBlock(Some(t)) && OthersBefore(blocks, k) {
      FirstCertificateDecides(blocks, k);
    }
  }

  function Directory(certDir: string, id: nat): string {
    certDir + "/" + Decimal(id)
  }

  function ChainPath(certDir: string, id: nat): string {
    Directory(certDir, id) + "/fullchain.pem"
  }

  function KeyPath(certDir: string, id: nat): string {
    Directory(certDir, id) + "/privkey.pem"
  }

  /** The two paths, spelled out. */
  lemma PathsAreText(certDir: string, id: nat)
    ensures ChainPath(certDir, id) == certDir + "/" + Decimal(id) + "/fullchain.pem"
    ensures KeyPath(certDir, id) == certDir + "/" + Decimal(id) + "/privkey.pem"
  {
  }

  /** No file of one certificate is a file of another, nor its chain its key. */
  lemma PathsDistinct(certDir: string, a: nat, b: nat)
    ensures ChainPath(certDir, a) == ChainPath(certDir, b) ==> a == b
    ensures KeyPath(certDir, a) == KeyPath(certDir, b) ==> a == b
    ensures ChainPath(certDir, a) != KeyPath(certDir, b)
  {
    hide Decimal;
    var m, n := |certDir| + 1, |ChainPath(certDir, a)|;
    if ChainPath(certDir, a) == ChainPath(certDir, b) {
      assert ChainPath(certDir, a)[m..n - 14] == Decimal(a);
      assert ChainPath(certDir, b)[m..n - 14] == Decimal(b);
      DecimalInjective(a, b);
    }
    if KeyPath(certDir, a) == KeyPath(certDir, b) {
      var k := |KeyPath(certDir, a)|;
      assert KeyPath(certDir, a)[m..k - 12] == Decimal(a);
      assert KeyPath(certDir, b)[m..k - 12] == Decimal(b);
      DecimalInjective(a, b);
    }
    NamesDiffer(Directory(certDir, a), Directory(certDir, b));
  }

  lemma NamesDiffer(x: string, y: string)
    ensures x + "/fullchain.pem" != y + "/privkey.pem"
  {
    var chain, key := x + "/fullchain.pem", y + "/privkey.pem";
    assert chain[|chain| - 5] == 'n' && key[|key| - 5] == 'y';
  }

  lemma PathsNotBlank(certDir: string, id: nat)
    ensures !Blank(ChainPath(certDir, id)) && !Blank(KeyPath(certDir, id))
  {
    hide Decimal;
    NotBlank(ChainPath(certDir, id), |certDir|);
    NotBlank(KeyPath(certDir, id), |certDir|);
  }

  lemma NotBlank(s: string, i: nat)
    requires i < |s| && !IsSpace(s[i])
    ensures !Blank(s)
  {
    TrimLeftKeeps(s, i);
  }

  lemma {:induction false} TrimLeftKeeps(s: string, i: nat)
    requires i < |s| && !IsSpace(s[i])
    ensures TrimRight(TrimLeft(s)) != ""
  {
    if IsSpace(s[0]) {
      TrimLeftKeeps(s[1..], i - 1);
    } else {
      TrimRightKeepsFirst(s);
    }
  }

  lemma {:induction false} TrimRightKeepsFirst(s: string)
    requires s != "" && !IsSpace(s[0])
    ensures TrimRight(s) != ""
  {
    if IsSpace(s[|s| - 1]) {
      TrimRightKeepsFirst(s[..|s| - 1]);
    }
  }
}
