/** bonnie++'s numbering of its tests, `tests_t`: Putc is 0 and DelRand is 11. */
module TestNumbers {

  const TEST_COUNT: nat := 12
}
