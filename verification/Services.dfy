/** What the `minio` service can point at. */
module Services {
  /** Which pods it selects: the old single pod, none, or those of the stateful set. */
  datatype Selector = OldPod | Nowhere | HaPods
}
