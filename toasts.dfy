/** The notifications the page raises. Rendering is not modelled: a toast is a value. */
module Toasts {
  datatype Variant = Default | Destructive

  datatype Toast = Toast(title: string, description: string, variant: Variant)
}
