/** Word sizes and error numbers. */
module Machine {
  const U32: nat := 0x1_0000_0000
  const U64: nat := 0x1_0000_0000_0000_0000

  const EIO := -5
  const EAGAIN := -11
  const ENOMEM := -12
  const EFAULT := -14
  const EEXIST := -17
  const EINVAL := -22
}
