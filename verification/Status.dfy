/** The status codes of c-ares/ares.h that the modelled operations use. */
module Status {
  datatype Status =
    | SUCCESS
    | ENODATA
    | EFORMERR
    | ESERVFAIL
    | ENOTFOUND
    | ENOTIMP
    | EREFUSED
    | EBADNAME
    | EBADRESP
    | ECONNREFUSED
    | ETIMEOUT
    | ENOMEM
    | EDESTRUCTION
    | EBADSTR
    | EBADFLAGS
    | ECANCELLED
}
