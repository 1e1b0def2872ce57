/** Optional and result-bearing values (an index lookup that misses, a
    script that stops with an exception), and what the two sample-file
    scripts share. */
module Wrappers {

  datatype Option<+T> = None | Some(value: T)

  datatype Result<+T, +E> = Success(value: T) | Failure(error: E)

  /** The larger of `n` and zero. */
  function Max0(n: int): nat
  {
    if n < 0 then 0 else n
  }

  /** The header line of a samples file, written by both the GTEx sample
      script and the template sampler. */
  const SamplesHeader := "hts\tma"
}
