/** The three ML-KEM parameter sets and their tables (`MlKemLevel`, and the server's `AlgoCode`). */
module Kem {
  import opened Bytes

  datatype Level = MlKem512 | MlKem768 | MlKem1024 {

    function WireCode(): Byte {
      match this
      case MlKem512 => 0
      case MlKem768 => 1
      case MlKem1024 => 2
    }

    function Name(): string {
      match this
      case MlKem512 => "ML-KEM-512"
      case MlKem768 => "ML-KEM-768"
      case MlKem1024 => "ML-KEM-1024"
    }

    /** Encoded encapsulation-key length in bytes. */
    function PubLen(): nat {
      match this
      case MlKem512 => 800
      case MlKem768 => 1184
      case MlKem1024 => 1568
    }

    function CiphertextLen(): nat {
      match this
      case MlKem512 => 768
      case MlKem768 => 1088
      case MlKem1024 => 1568
    }

    /** The derived `Ord`: declaration order, which is also wire-code order. */
    predicate WeakerThan(other: Level) {
      WireCode() < other.WireCode()
    }
  }

  function FromWireCode(b: int): (r: Option<Level>)
    ensures forall l: Level :: r == Some(l) <==> l.WireCode() == b
  {
    if b == 0 then Some(MlKem512)
    else if b == 1 then Some(MlKem768)
    else if b == 2 then Some(MlKem1024)
    else None
  }

  function FromName(s: string): (r: Option<Level>)
    ensures forall l: Level :: r == Some(l) <==> l.Name() == s
  {
    if s == "ML-KEM-512" then Some(MlKem512)
    else if s == "ML-KEM-768" then Some(MlKem768)
    else if s == "ML-KEM-1024" then Some(MlKem1024)
    else None
  }
}
