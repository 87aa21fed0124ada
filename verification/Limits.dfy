/** Sizes that several parts of the kernel share (include/process.h). */
module Limits {
  const NR_TASKS := 64
}
