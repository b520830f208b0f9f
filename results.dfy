/** Failure-aware values shared by the model of the page-size measurement. */
module Results {

  /** The causes of a failed measurement. The source wraps each cause in a
      text message naming the URL and the operation; the model keeps only
      the cause. `DepthExceeded` is the model's own: it is returned when the
      recursion bound runs out (the source has no bound). */
  datatype Error =
    | InvalidURL      // url.Parse rejected the page URL or a discovered link
    | NetworkError    // the GET could not be issued or the connection failed
    | ReadError       // the response body could not be read to its end
    | ParseError      // the HTML tokenizer stopped with an error other than EOF
    | DepthExceeded   // the model's recursion bound was reached

  datatype Result<+T> = Ok(value: T) | Err(error: Error)

  datatype Option<+T> = None | Some(value: T)
}
