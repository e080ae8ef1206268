/** The kernel's error codes, as the driver returns them. */
module Errno {
  const EIO := -5
  const EFAULT := -14
  const EBUSY := -16
  const EINVAL := -22
  const ETIMEDOUT := -110
  const ERESTARTSYS := -512
}
