/** The size of a page, which the program has both as a constant and from the system. */
module Page {
  const PAGE_SIZE: nat := 4096
}
