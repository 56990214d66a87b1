/** The few pieces of `net/http` the modelled handlers use. */
module Http {

  /** `http.StatusUnauthorized` */
  const StatusUnauthorized: int := 401

  /** `http.StatusInternalServerError` */
  const StatusInternalServerError: int := 500

  /** What `http.Error(w, message, status)` writes: a status code and a plain-text message. */
  datatype Error = Error(status: int, message: string)
}
