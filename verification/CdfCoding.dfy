/** Coding against tables known to be strict: no error case, one symbol out, the same symbol in. */
module CdfCoding {
  import opened Arith
  import opened RangeSpec
  import opened RangeEncoding
  import opened RangeDecoding

  type Cdf = seq<uint16>

  function Code(cdf: Cdf, s: int): (t: Sym)
    requires Codes(cdf, s)
    ensures t.Codable()
  {
    CdfSym(cdf, s)
  }

  method Put(enc: RangeEncoder, s: int, cdf: Cdf)
    requires enc.Valid() && Codes(cdf, s)
    modifies enc, enc.buf
    ensures enc.Valid() && enc.raws == old(enc.raws)
    ensures enc.trace == old(enc.trace) + [Code(cdf, s)]
    ensures enc.failed == old(enc.failed) && (old(enc.err) != 0 ==> enc.err != 0)
  {
    hide RangeEncoder.Valid;
    enc.EncodeCDF(s, cdf);
  }

  /** Any byte string yields some symbol of the table; a promised one comes back. */
  method Take(dec: RangeDecoder, cdf: Cdf, ghost sent: int, ghost rest: seq<Sym>) returns (k: int)
    requires dec.Valid() && Strict(cdf)
    modifies dec
    ensures dec.Valid() && dec.Err == old(dec.Err) && Codes(cdf, k)
    ensures Codes(cdf, sent) && old(dec.todo) == [Code(cdf, sent)] + rest ==> k == sent && dec.todo == rest
  {
    hide RangeDecoder.Valid;
    k := dec.DecodeCDF(cdf, sent, rest);
  }
}
